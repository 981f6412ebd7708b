/**
 * Printing and parsing side by side: the text `operator<<` writes for an
 * integer, a boolean or a date reads back, inside a line, as the same value
 * (under the conditions stated on each lemma), and the escaping of the JSON test
 * driver is undone by the basic-string decoder. The quirk lemmas at the end show
 * where the two sides disagree.
 */
module RoundTrip {
  import opened Wrappers
  import opened Errors
  import opened Document
  import opened Lexer
  import opened Scalars
  import opened Printer
  import opened Escape

  /** `s` occurs in `line` at position `p`. */
  predicate At(line: string, p: nat, s: string)
  {
    p + |s| <= |line| && line[p..p + |s|] == s
  }

  lemma AtConcat(line: string, p: nat, a: string, b: string)
    requires At(line, p, a + b)
    ensures At(line, p, a) && At(line, p + |a|, b)
  {
    assert line[p..p + |a|] == line[p..p + |a + b|][..|a|];
    assert line[p + |a|..p + |a| + |b|] == line[p..p + |a + b|][|a|..];
  }

  lemma AtChar(line: string, p: nat, a: string, c: char, b: string)
    requires At(line, p, a + [c] + b)
    ensures At(line, p, a) && p + |a| < |line| && line[p + |a|] == c && At(line, p + |a| + 1, b)
  {
    AtConcat(line, p, a + [c], b);
    AtConcat(line, p, a, [c]);
    AtIndex(line, p + |a|, [c], 0);
  }

  lemma AtIndex(line: string, p: nat, s: string, k: nat)
    requires At(line, p, s) && k < |s|
    ensures line[p + k] == s[k]
  {
    assert line[p..p + |s|][k] == line[p + k];
  }

  /** Pointwise occurrence is the slice. */
  lemma AtSlice(line: string, p: nat, s: string)
    requires At(line, p, s)
    ensures line[p..p + |s|] == s
  {
  }

  // ---------------------------------------------------------------------------
  // Digits
  // ---------------------------------------------------------------------------

  lemma DigitCharValue(d: nat)
    requires d < 10
    ensures DigitValue(DigitChar(d)) == d
  {
    assert "0123456789"[d] as int == '0' as int + d by {
      if d == 0 {} else if d == 1 {} else if d == 2 {} else if d == 3 {} else if d == 4 {}
      else if d == 5 {} else if d == 6 {} else if d == 7 {} else if d == 8 {} else {}
    }
  }

  /** The printed digits of `n` read back as `n`. */
  lemma {:induction false} NatTextValue(n: nat)
    ensures DigitsValue(NatText(n)) == n
    decreases n
  {
    var s := NatText(n);
    if n < 10 {
      DigitCharValue(n);
      assert s[..0] == [];
    } else {
      NatTextValue(n / 10);
      DigitCharValue(n % 10);
      assert s[..|s| - 1] == NatText(n / 10);
    }
  }

  /** A number below `10^w` prints in at most `w` digits. */
  lemma {:induction false} NatTextLength(n: nat, w: nat)
    requires w >= 1 && n < Pow10(w)
    ensures |NatText(n)| <= w
    decreases w
  {
    if n >= 10 {
      assert w > 1;
      assert n / 10 < Pow10(w - 1);
      NatTextLength(n / 10, w - 1);
    }
  }

  /** Leading zeros do not change the value of a digit run. */
  lemma {:induction false} LeadingZeros(z: nat, s: string)
    ensures DigitsValue(Repeat('0', z) + s) == DigitsValue(s)
    decreases |s|, z
  {
    if s == [] {
      assert Repeat('0', z) + s == Repeat('0', z);
      ZerosValue(z);
    } else {
      assert (Repeat('0', z) + s)[..|Repeat('0', z) + s| - 1] == Repeat('0', z) + s[..|s| - 1];
      LeadingZeros(z, s[..|s| - 1]);
    }
  }

  lemma {:induction false} ZerosValue(z: nat)
    ensures DigitsValue(Repeat('0', z)) == 0
  {
    if z > 0 {
      assert Repeat('0', z)[..z - 1] == Repeat('0', z - 1);
      ZerosValue(z - 1);
    }
  }

  /** A zero-padded field of a non-negative number is all digits and reads back as that number. */
  lemma FieldValue(n: nat, w: nat)
    ensures AllDigits(Field(n, w)) && DigitsValue(Field(n, w)) == n && |Field(n, w)| >= w
    ensures w >= 1 && n < Pow10(w) ==> |Field(n, w)| == w
  {
    var s := NatText(n);
    assert Field(n, w) == Pad(s, w);
    hide NatText, Repeat, Field;
    NatTextValue(n);
    if |s| < w {
      LeadingZeros(w - |s|, s);
    }
    if w >= 1 && n < Pow10(w) {
      NatTextLength(n, w);
    }
  }

  /** Removing underscores leaves a run of digits as it is. */
  lemma {:induction false} StripDigits(s: string)
    requires AllDigits(s)
    ensures Strip(s) == s
    decreases |s|
  {
    if s != [] {
      assert AllDigits(s[1..]);
      StripDigits(s[1..]);
      assert [s[0]] + s[1..] == s;
    }
  }

  // ---------------------------------------------------------------------------
  // Where the scanners stop
  // ---------------------------------------------------------------------------

  lemma {:induction false} RunEndAt(line: string, c: nat, e: nat)
    requires c <= e <= |line|
    requires forall k | c <= k < e :: IsDigitOrUnderscore(line[k])
    requires e == |line| || !IsDigitOrUnderscore(line[e])
    ensures RunEnd(line, c) == e
    decreases e - c
  {
    if c < e {
      RunEndAt(line, c + 1, e);
    }
  }

  lemma {:induction false} DigitRunEndAt(line: string, p: nat, e: nat, r: nat)
    requires p <= r <= e <= |line|
    requires forall k | p <= k < r :: IsDigit(line[k])
    requires r == e || !IsDigit(line[r])
    ensures DigitRunEnd(line, p, e) == r
    decreases r - p
  {
    if p < r {
      DigitRunEndAt(line, p + 1, e, r);
    }
  }

  lemma {:induction false} DateEndAt(line: string, i: nat, r: nat)
    requires i <= r <= |line|
    requires forall k | i <= k < r :: IsDateChar(line[k])
    requires r == |line| || !IsDateChar(line[r])
    ensures DateEnd(line, i, |line|) == r
    decreases r - i
  {
    if i < r {
      DateEndAt(line, i + 1, r);
    }
  }

  lemma {:induction false} FindEndAt(line: string, i: nat, stops: string, r: nat)
    requires i <= r <= |line|
    requires forall k | i <= k < r :: line[k] !in stops
    requires r == |line| || line[r] in stops
    ensures FindEnd(line, i, stops) == r
    decreases r - i
  {
    if i < r {
      FindEndAt(line, i + 1, stops, r);
    }
  }

  // ---------------------------------------------------------------------------
  // Integers and booleans
  // ---------------------------------------------------------------------------

  /**
   * A printed 64-bit integer, followed by anything that cannot continue a
   * number, parses back as the same integer and stops right after its text.
   */
  lemma IntRoundTrip(line: string, i: nat, v: int, e: nat)
    requires MinInt64 <= v <= MaxInt64
    requires At(line, i, IntText(v)) && e == i + |IntText(v)|
    requires e == |line| || !(IsDigitOrUnderscore(line[e]) || line[e] in ".eE")
    ensures NumberSpec(line, i) == Ok((Int(v), e))
  {
    var m := IntScan(line, i, v, e);
    assert !(e < |line| && (line[e] == '.' || line[e] == 'e' || line[e] == 'E'));
  }

  /** A non-empty run of digits, ended by a character that cannot continue a number, is one digit group. */
  lemma DigitRunScan(line: string, m: nat, digits: string, e: nat)
    requires |digits| > 0 && AllDigits(digits) && At(line, m, digits) && e == m + |digits|
    requires e == |line| || !IsDigitOrUnderscore(line[e])
    ensures DigitGroups(line, m) == Ok(e)
    ensures Strip(line[m..e]) == digits
  {
    forall k | m <= k < e
      ensures IsDigit(line[k])
    {
      AtIndex(line, m, digits, k - m);
    }
    RunEndAt(line, m, e);
    assert ValidGroups(digits);
    StripDigits(digits);
  }

  /** The printed text of an integer: an optional minus sign, then the digits of its magnitude. */
  lemma IntTextShape(v: int) returns (sign: string, digits: string)
    ensures IntText(v) == sign + digits
    ensures sign == (if v < 0 then "-" else "")
    ensures |digits| > 0 && AllDigits(digits) && DigitsValue(digits) == Abs(v)
  {
    sign := if v < 0 then "-" else "";
    digits := NatText(Abs(v));
    NatTextValue(Abs(v));
  }

  /** The pieces `parse_number` sees in a printed integer: the sign, the digit groups, the value. */
  lemma IntScan(line: string, i: nat, v: int, e: nat) returns (m: nat)
    requires MinInt64 <= v <= MaxInt64
    requires At(line, i, IntText(v)) && e == i + |IntText(v)|
    requires e == |line| || !IsDigitOrUnderscore(line[e])
    ensures m <= e <= |line|
    ensures SignEnd(line, i) == m
    ensures DigitGroups(line, m) == Ok(e)
    ensures Stoll(line[i..m], Strip(line[m..e])) == Some(v)
  {
    hide DigitGroups, IntText, Strip;
    var sign, digits := IntTextShape(v);
    m := i + |sign|;
    AtConcat(line, i, sign, digits);
    AtIndex(line, m, digits, 0);
    if v < 0 {
      AtIndex(line, i, sign, 0);
    }
    assert SignEnd(line, i) == m;
    DigitRunScan(line, m, digits, e);
    assert line[i..m] == sign;
  }

  /** A printed boolean, followed by whitespace, a comment or the end of the line, parses back. */
  lemma BoolRoundTrip(line: string, i: nat, b: bool)
    requires At(line, i, ValueText(Bool(b)))
    requires var e := i + |ValueText(Bool(b))|; e == |line| || line[e] in " \t#"
    ensures ParseBool(line, i) == Ok((Bool(b), i + |ValueText(Bool(b))|))
  {
    var t := ValueText(Bool(b));
    forall k | i <= k < i + |t|
      ensures line[k] !in " \t#"
    {
      AtIndex(line, i, t, k - i);
    }
    FindEndAt(line, i, " \t#", i + |t|);
  }

  // ---------------------------------------------------------------------------
  // Dates
  // ---------------------------------------------------------------------------

  /**
   * The dates whose printed form reads back unchanged: every field fits its
   * printed width, and the two offsets carry the one sign the printer writes
   * (`+` only for a positive hour offset).
   */
  predicate Printable(dt: DateTime)
  {
    0 <= dt.year < 10000 && 0 <= dt.month < 100 && 0 <= dt.day < 100 &&
    0 <= dt.hour < 100 && 0 <= dt.minute < 100 && 0 <= dt.second < 100 && 0 <= dt.microsecond &&
    -100 < dt.hourOffset < 100 && -100 < dt.minuteOffset < 100 &&
    ((dt.hourOffset > 0 && dt.minuteOffset >= 0) || (dt.hourOffset <= 0 && dt.minuteOffset <= 0))
  }

  predicate DateChars(s: string)
  {
    forall k | 0 <= k < |s| :: IsDateChar(s[k])
  }

  lemma DateCharsConcat(a: string, b: string)
    requires DateChars(a) && DateChars(b)
    ensures DateChars(a + b)
  {
    forall k | 0 <= k < |a + b|
      ensures IsDateChar((a + b)[k])
    {
      if k >= |a| {
        assert (a + b)[k] == b[k - |a|];
      }
    }
  }

  /** A run of digits at `p` reads back with `eat_digits` as its value. */
  lemma DigitsRead(line: string, p: nat, s: string, e: nat)
    requires AllDigits(s) && At(line, p, s) && p + |s| <= e <= |line|
    ensures DigitsAt(line, p, |s|, e) && Num(line, p, |s|) == DigitsValue(s)
  {
    forall k | p <= k < p + |s|
      ensures IsDigit(line[k])
    {
      AtIndex(line, p, s, k - p);
    }
    AtSlice(line, p, s);
  }

  /** `s` is the `w`-digit decimal text of `n`. */
  predicate DigitField(s: string, w: nat, n: int)
  {
    |s| == w && AllDigits(s) && DigitsValue(s) == n
  }

  /** The printed head of a date: six digit fields of the right widths, joined by `-`, `T` and `:`. */
  lemma HeadShape(dt: DateTime)
    requires Printable(dt)
    ensures HeadText(dt) ==
      (Field(dt.year, 4) + ['-'] + Field(dt.month, 2) + ['-'] + Field(dt.day, 2)) + ['T'] +
      (Field(dt.hour, 2) + [':'] + Field(dt.minute, 2) + [':'] + Field(dt.second, 2))
    ensures DigitField(Field(dt.year, 4), 4, dt.year) && DigitField(Field(dt.month, 2), 2, dt.month)
    ensures DigitField(Field(dt.day, 2), 2, dt.day) && DigitField(Field(dt.hour, 2), 2, dt.hour)
    ensures DigitField(Field(dt.minute, 2), 2, dt.minute) && DigitField(Field(dt.second, 2), 2, dt.second)
  {
    hide Field;
    FieldValue(dt.year, 4);
    FieldValue(dt.month, 2);
    FieldValue(dt.day, 2);
    FieldValue(dt.hour, 2);
    FieldValue(dt.minute, 2);
    FieldValue(dt.second, 2);
  }

  /** `YYYY-MM-DD` made of the three digit fields, read back. */
  lemma DatePartRead(line: string, i: nat, y: string, mo: string, d: string, e: nat)
    requires |y| == 4 && |mo| == 2 && |d| == 2 && AllDigits(y) && AllDigits(mo) && AllDigits(d)
    requires At(line, i, y + ['-'] + mo + ['-'] + d) && i + 10 <= e <= |line|
    ensures DatePartAt(line, i, e)
    ensures Num(line, i, 4) == DigitsValue(y) && Num(line, i + 5, 2) == DigitsValue(mo) && Num(line, i + 8, 2) == DigitsValue(d)
  {
    AtChar(line, i, y + ['-'] + mo, '-', d);
    AtChar(line, i, y, '-', mo);
    DigitsRead(line, i, y, e);
    DigitsRead(line, i + 5, mo, e);
    DigitsRead(line, i + 8, d, e);
  }

  /** `HH:MM:SS` made of the three digit fields, read back (the part of `THH:MM:SS` after the `T`). */
  lemma TimeFieldsRead(line: string, p: nat, h: string, mi: string, sc: string, e: nat)
    requires |h| == 2 && |mi| == 2 && |sc| == 2 && AllDigits(h) && AllDigits(mi) && AllDigits(sc)
    requires At(line, p, h + [':'] + mi + [':'] + sc) && p + 8 <= e <= |line|
    ensures DigitsAt(line, p, 2, e) && CharAt(line, p + 2, ':', e) && DigitsAt(line, p + 3, 2, e)
    ensures CharAt(line, p + 5, ':', e) && DigitsAt(line, p + 6, 2, e)
    ensures Num(line, p, 2) == DigitsValue(h) && Num(line, p + 3, 2) == DigitsValue(mi) && Num(line, p + 6, 2) == DigitsValue(sc)
  {
    AtChar(line, p, h + [':'] + mi, ':', sc);
    AtChar(line, p, h, ':', mi);
    DigitsRead(line, p, h, e);
    DigitsRead(line, p + 3, mi, e);
    DigitsRead(line, p + 6, sc, e);
  }

  /** The `YYYY-MM-DDTHH:MM:SS` head of a printed date, read back field by field. */
  lemma HeadScan(line: string, i: nat, dt: DateTime, e: nat)
    requires Printable(dt) && At(line, i, HeadText(dt)) && i + 19 <= e <= |line|
    ensures |HeadText(dt)| == 19
    ensures DatePartAt(line, i, e) && TimePartAt(line, i + 10, e)
    ensures Num(line, i, 4) == dt.year && Num(line, i + 5, 2) == dt.month && Num(line, i + 8, 2) == dt.day
    ensures Num(line, i + 11, 2) == dt.hour && Num(line, i + 14, 2) == dt.minute && Num(line, i + 17, 2) == dt.second
  {
    hide Field;
    HeadShape(dt);
    var y, mo, d := Field(dt.year, 4), Field(dt.month, 2), Field(dt.day, 2);
    var h, mi, sc := Field(dt.hour, 2), Field(dt.minute, 2), Field(dt.second, 2);
    AtChar(line, i, y + ['-'] + mo + ['-'] + d, 'T', h + [':'] + mi + [':'] + sc);
    DatePartRead(line, i, y, mo, d, e);
    TimeFieldsRead(line, i + 11, h, mi, sc, e);
  }

  /** The printed fraction: empty, or a `.` and at least six digits that read back as the count. */
  lemma FractionShape(micro: nat) returns (digits: string)
    ensures FractionText(micro) == if micro > 0 then "." + digits else ""
    ensures AllDigits(digits) && |digits| > 0 && DigitsValue(digits) == micro
  {
    digits := Field(micro, 6);
    FieldValue(micro, 6);
  }

  /** A `.` and a run of digits at `p`, ended by a non-digit, is the fraction and its value. */
  lemma FractionRead(line: string, p: nat, digits: string, e: nat)
    requires AllDigits(digits) && At(line, p, "." + digits)
    requires p + 1 + |digits| < e <= |line| && !IsDigit(line[p + 1 + |digits|])
    ensures FractionEnd(line, p, e) == p + 1 + |digits|
    ensures FractionValue(line, p, e) == DigitsValue(digits)
  {
    AtConcat(line, p, ".", digits);
    AtIndex(line, p, ".", 0);
    forall k | p + 1 <= k < p + 1 + |digits|
      ensures IsDigit(line[k])
    {
      AtIndex(line, p + 1, digits, k - p - 1);
    }
    DigitRunEndAt(line, p + 1, e, p + 1 + |digits|);
  }

  /** The printed fraction reads back as the microsecond count, and ends where the zone starts. */
  lemma FractionScan(line: string, p: nat, micro: nat, q: nat, e: nat)
    requires At(line, p, FractionText(micro)) && q == p + |FractionText(micro)|
    requires q < e <= |line| && line[q] in "Z+-"
    ensures FractionEnd(line, p, e) == q
    ensures FractionValue(line, p, e) == micro
  {
    var digits := FractionShape(micro);
    hide Field, DigitsValue, AllDigits;
    if micro > 0 {
      assert q == p + 1 + |digits| && !IsDigit(line[q]);
      FractionRead(line, p, digits, e);
    } else {
      assert q == p && line[p] != '.';
    }
  }

  /** A non-zero zone prints as a sign, two digits, `:` and two digits. */
  lemma ZoneShape(h: int, m: int) returns (hh: string, mm: string)
    requires -100 < h < 100 && -100 < m < 100 && (h != 0 || m != 0)
    ensures ZoneText(h, m) == [if h > 0 then '+' else '-'] + hh + [':'] + mm
    ensures |hh| == 2 && AllDigits(hh) && DigitsValue(hh) == Abs(h)
    ensures |mm| == 2 && AllDigits(mm) && DigitsValue(mm) == Abs(m)
  {
    hh, mm := Field(Abs(h), 2), Field(Abs(m), 2);
    FieldValue(Abs(h), 2);
    FieldValue(Abs(m), 2);
  }

  /** `±HH:MM` reads back as the two offsets, both negated after `-`. */
  lemma OffsetRead(line: string, q: nat, sign: char, hh: string, mm: string)
    requires sign == '+' || sign == '-'
    requires |hh| == 2 && AllDigits(hh) && |mm| == 2 && AllDigits(mm)
    requires At(line, q, [sign] + hh + [':'] + mm)
    ensures ZoneSpec(line, q, q + 6) ==
      Ok(if sign == '+' then (DigitsValue(hh), DigitsValue(mm)) else (-DigitsValue(hh), -DigitsValue(mm)))
  {
    var e := q + 6;
    AtChar(line, q, [sign] + hh, ':', mm);
    AtConcat(line, q, [sign], hh);
    AtIndex(line, q, [sign], 0);
    DigitsRead(line, q + 1, hh, e);
    DigitsRead(line, q + 4, mm, e);
    assert OffsetAt(line, q, e);
  }

  /** The printed zone reads back as the two offsets. */
  lemma ZoneScan(line: string, q: nat, h: int, m: int, e: nat)
    requires -100 < h < 100 && -100 < m < 100 && ((h > 0 && m >= 0) || (h <= 0 && m <= 0))
    requires At(line, q, ZoneText(h, m)) && e == q + |ZoneText(h, m)|
    ensures q < e && line[q] in "Z+-"
    ensures ZoneSpec(line, q, e) == Ok((h, m))
  {
    hide Field, OffsetAt, Num;
    if h != 0 || m != 0 {
      var hh, mm := ZoneShape(h, m);
      OffsetRead(line, q, if h > 0 then '+' else '-', hh, mm);
      AtIndex(line, q, ZoneText(h, m), 0);
    } else {
      AtIndex(line, q, "Z", 0);
    }
  }

  /** Every character of a printed date is one `find_end_of_date` lets through. */
  lemma TextDateChars(dt: DateTime)
    requires Printable(dt)
    ensures DateChars(DateTimeText(dt))
  {
    hide Field;
    HeadShape(dt);
    var y, mo, d := Field(dt.year, 4), Field(dt.month, 2), Field(dt.day, 2);
    var h, mi, sc := Field(dt.hour, 2), Field(dt.minute, 2), Field(dt.second, 2);
    var digits := FractionShape(dt.microsecond);
    DateCharsConcat(y, ['-']);
    DateCharsConcat(y + ['-'], mo);
    DateCharsConcat(y + ['-'] + mo, ['-']);
    DateCharsConcat(y + ['-'] + mo + ['-'], d);
    DateCharsConcat(h, [':']);
    DateCharsConcat(h + [':'], mi);
    DateCharsConcat(h + [':'] + mi, [':']);
    DateCharsConcat(h + [':'] + mi + [':'], sc);
    DateCharsConcat(y + ['-'] + mo + ['-'] + d, ['T']);
    DateCharsConcat(y + ['-'] + mo + ['-'] + d + ['T'], h + [':'] + mi + [':'] + sc);
    DateCharsConcat(".", digits);
    var front := HeadText(dt) + FractionText(dt.microsecond);
    DateCharsConcat(HeadText(dt), FractionText(dt.microsecond));
    ZoneDateChars(dt.hourOffset, dt.minuteOffset);
    DateCharsConcat(front, ZoneText(dt.hourOffset, dt.minuteOffset));
  }

  lemma ZoneDateChars(h: int, m: int)
    ensures DateChars(ZoneText(h, m))
  {
    if h != 0 || m != 0 {
      var sign := if h > 0 then "+" else "-";
      var hh, mm := Field(Abs(h), 2), Field(Abs(m), 2);
      FieldValue(Abs(h), 2);
      FieldValue(Abs(m), 2);
      DateCharsConcat(sign, hh);
      DateCharsConcat(sign + hh, [':']);
      DateCharsConcat(sign + hh + [':'], mm);
    }
  }

  /** `find_end_of_date` stops right after a run of date characters followed by a non-date character. */
  lemma DateCharsEnd(line: string, i: nat, t: string, e: nat)
    requires DateChars(t) && At(line, i, t) && e == i + |t|
    requires e == |line| || !IsDateChar(line[e])
    ensures DateEnd(line, i, |line|) == e
  {
    forall k | i <= k < i + |t|
      ensures IsDateChar(line[k])
    {
      AtIndex(line, i, t, k - i);
    }
    DateEndAt(line, i, i + |t|);
  }

  /** `find_end_of_date` stops right after a printed date that is followed by a non-date character. */
  lemma DateEndOfText(line: string, i: nat, dt: DateTime, e: nat)
    requires Printable(dt)
    requires At(line, i, DateTimeText(dt)) && e == i + |DateTimeText(dt)|
    requires e == |line| || !IsDateChar(line[e])
    ensures DateEnd(line, i, |line|) == e
  {
    TextDateChars(dt);
    DateCharsEnd(line, i, DateTimeText(dt), e);
  }

  /** `parse_date` read piece by piece: a head, a fraction and a zone that read as the fields of `dt` give `dt`. */
  lemma DateFromParts(line: string, i: nat, dt: DateTime, q: nat, e: nat)
    requires i <= |line| && e == DateEnd(line, i, |line|) && i + 19 <= q <= e
    requires DatePartAt(line, i, e) && TimePartAt(line, i + 10, e)
    requires Num(line, i, 4) == dt.year && Num(line, i + 5, 2) == dt.month && Num(line, i + 8, 2) == dt.day
    requires Num(line, i + 11, 2) == dt.hour && Num(line, i + 14, 2) == dt.minute && Num(line, i + 17, 2) == dt.second
    requires FractionEnd(line, i + 19, e) == q && FractionValue(line, i + 19, e) == dt.microsecond
    requires ZoneSpec(line, q, e) == Ok((dt.hourOffset, dt.minuteOffset))
    ensures DateSpec(line, i) == Ok((Date(dt), e))
  {
  }

  /** A printed date at `i` that ends at `e`: its head, its fraction and its zone, in that order. */
  lemma DateTextSplit(line: string, i: nat, dt: DateTime, e: nat) returns (q: nat)
    requires Printable(dt)
    requires At(line, i, DateTimeText(dt)) && e == i + |DateTimeText(dt)|
    ensures At(line, i, HeadText(dt)) && |HeadText(dt)| == 19
    ensures At(line, i + 19, FractionText(dt.microsecond)) && q == i + 19 + |FractionText(dt.microsecond)|
    ensures At(line, q, ZoneText(dt.hourOffset, dt.minuteOffset)) && e == q + |ZoneText(dt.hourOffset, dt.minuteOffset)|
  {
    var head, frac := HeadText(dt), FractionText(dt.microsecond);
    var zone := ZoneText(dt.hourOffset, dt.minuteOffset);
    hide Field;
    HeadShape(dt);
    var y, mo, d := Field(dt.year, 4), Field(dt.month, 2), Field(dt.day, 2);
    var h, mi, sc := Field(dt.hour, 2), Field(dt.minute, 2), Field(dt.second, 2);
    AtConcat(line, i, head + frac, zone);
    AtConcat(line, i, head, frac);
    q := i + 19 + |frac|;
  }

  /** The pieces of a printed date that ends at `e`, each read back: the head, the fraction up to the zone, and the zone. */
  lemma DatePiecesRead(line: string, i: nat, dt: DateTime, e: nat) returns (q: nat)
    requires Printable(dt)
    requires At(line, i, DateTimeText(dt)) && e == i + |DateTimeText(dt)|
    requires e == |line| || !IsDateChar(line[e])
    ensures e == DateEnd(line, i, |line|) && i + 19 <= q <= e
    ensures DatePartAt(line, i, e) && TimePartAt(line, i + 10, e)
    ensures Num(line, i, 4) == dt.year && Num(line, i + 5, 2) == dt.month && Num(line, i + 8, 2) == dt.day
    ensures Num(line, i + 11, 2) == dt.hour && Num(line, i + 14, 2) == dt.minute && Num(line, i + 17, 2) == dt.second
    ensures FractionEnd(line, i + 19, e) == q && FractionValue(line, i + 19, e) == dt.microsecond
    ensures ZoneSpec(line, q, e) == Ok((dt.hourOffset, dt.minuteOffset))
  {
    DateEndOfText(line, i, dt, e);
    q := DateTextSplit(line, i, dt, e);
    HeadScan(line, i, dt, e);
    ZoneScan(line, q, dt.hourOffset, dt.minuteOffset, e);
    FractionScan(line, i + 19, dt.microsecond, q, e);
  }

  /**
   * A printed date, followed by anything that cannot continue a date, parses
   * back as the same date and stops right after its text (at `e`).
   */
  lemma DateRoundTrip(line: string, i: nat, dt: DateTime, e: nat)
    requires Printable(dt)
    requires At(line, i, DateTimeText(dt)) && e == i + |DateTimeText(dt)|
    requires e == |line| || !IsDateChar(line[e])
    ensures DateSpec(line, i) == Ok((Date(dt), e))
  {
    var q := DatePiecesRead(line, i, dt, e);
    DateFromParts(line, i, dt, q, e);
  }

  // ---------------------------------------------------------------------------
  // Escaped strings
  // ---------------------------------------------------------------------------

  /** The escaped text of `s`, followed by a `"`, decodes as a basic-string body back to `s`. */
  lemma {:induction false} EscapedBody(line: string, j: nat, s: string, e: nat)
    requires At(line, j, Escaped(s)) && e == j + |Escaped(s)|
    requires e < |line| && line[e] == '"'
    ensures LiteralBody(line, j, '"') == Ok((s, e + 1))
    decreases |s|
  {
    hide Escaped, EscapeChar, At, LiteralBody, Prepend;
    if s == [] {
      EscapedEmpty(line, j, e);
    } else {
      EscapedSplit(line, j, s, e);
      EscapedBody(line, j + |EscapeChar(s[0])|, s[1..], e);
      EscapedStep(line, j, s, e);
    }
  }

  /** The empty string escapes to nothing, so its body is just the closing quote. */
  lemma EscapedEmpty(line: string, j: nat, e: nat)
    requires At(line, j, Escaped([])) && e == j + |Escaped([])|
    requires e < |line| && line[e] == '"'
    ensures LiteralBody(line, j, '"') == Ok(([], e + 1))
  {
  }

  /** The first escaped character in front of a body that decodes to the rest of `s`. */
  lemma EscapedStep(line: string, j: nat, s: string, e: nat)
    requires s != [] && At(line, j, EscapeChar(s[0]))
    requires j + |EscapeChar(s[0])| <= |line|
    requires LiteralBody(line, j + |EscapeChar(s[0])|, '"') == Ok((s[1..], e + 1))
    ensures LiteralBody(line, j, '"') == Ok((s, e + 1))
  {
    EscapeCharRead(line, j, s[0]);
    assert [s[0]] + s[1..] == s;
  }

  /** The escaped text of a non-empty string is its first character's escape, then the rest's. */
  lemma EscapedSplit(line: string, j: nat, s: string, e: nat)
    requires s != [] && At(line, j, Escaped(s)) && e == j + |Escaped(s)|
    ensures At(line, j, EscapeChar(s[0])) && At(line, j + |EscapeChar(s[0])|, Escaped(s[1..]))
    ensures e == j + |EscapeChar(s[0])| + |Escaped(s[1..])|
  {
    hide Escaped;
    EscapedCons(s);
    AtConcat(line, j, EscapeChar(s[0]), Escaped(s[1..]));
  }

  lemma EscapedCons(s: string)
    requires s != []
    ensures Escaped(s) == EscapeChar(s[0]) + Escaped(s[1..])
  {
  }

  /** One escaped character decodes back to that character. */
  lemma EscapeCharRead(line: string, j: nat, ch: char)
    requires At(line, j, EscapeChar(ch))
    ensures LiteralBody(line, j, '"') == Prepend([ch], LiteralBody(line, j + |EscapeChar(ch)|, '"'))
  {
    AtIndex(line, j, EscapeChar(ch), 0);
    if Special(ch) {
      AtIndex(line, j, EscapeChar(ch), 1);
    }
  }

  /**
   * A string escaped by the JSON test driver and put between double quotes reads
   * back with `string_literal` as the original string.
   */
  lemma EscapeRoundTrip(line: string, i: nat, s: string, e: nat)
    requires At(line, i, "\"" + Escaped(s) + "\"") && e == i + |Escaped(s)| + 2
    ensures LiteralSpec(line, i, '"') == Ok((s, SkipWs(line, e)))
  {
    AtChar(line, i, "\"" + Escaped(s), '"', "");
    AtConcat(line, i, "\"", Escaped(s));
    EscapedBody(line, i + 1, s, e - 1);
  }
}
