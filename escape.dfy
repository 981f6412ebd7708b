/**
 * `escape_string` of the JSON test driver (parse_stdin.cpp:6-19): a backslash
 * goes in front of every backslash and every double quote; every other
 * character is copied.
 */
module Escape {

  /** A character that `escape_string` escapes. */
  predicate Special(c: char)
  {
    c == '\\' || c == '"'
  }

  /** The escaped form of one character. */
  function EscapeChar(c: char): string
  {
    if Special(c) then ['\\', c] else [c]
  }

  /** The escaped form of a whole string, character by character. */
  function Escaped(s: string): (r: string)
    ensures |r| >= |s|
    ensures |s| > 0 ==> r[|r| - 1] == s[|s| - 1]
    decreases |s|
  {
    if s == [] then "" else EscapeChar(s[0]) + Escaped(s[1..])
  }

  /** The number of characters of `s` that get a backslash. */
  function SpecialCount(s: string): nat
    decreases |s|
  {
    if s == [] then 0 else (if Special(s[0]) then 1 else 0) + SpecialCount(s[1..])
  }

  /** Escaping a string extended by one character extends the escaped text by that character's escape. */
  lemma {:induction false} EscapedAppend(s: string, c: char)
    ensures Escaped(s + [c]) == Escaped(s) + EscapeChar(c)
    decreases |s|
  {
    if s == [] {
      assert [c][1..] == [];
      assert Escaped([c]) == EscapeChar(c) + Escaped([]);
    } else {
      assert (s + [c])[1..] == s[1..] + [c];
      EscapedAppend(s[1..], c);
    }
  }

  /** The loop of `escape_string` (parse_stdin.cpp:8-18). */
  method EscapeString(str: string) returns (res: string)
    ensures res == Escaped(str)
  {
    res := "";
    for i := 0 to |str|
      invariant res == Escaped(str[..i])
    {
      assert str[..i + 1] == str[..i] + [str[i]];
      EscapedAppend(str[..i], str[i]);
      if str[i] == '\\' {
        res := res + "\\\\";
      } else if str[i] == '"' {
        res := res + "\\\"";
      } else {
        res := res + [str[i]];
      }
    }
    assert str[..|str|] == str;
  }

  /** The escaped text is one character longer for each backslash or quote. */
  lemma {:induction false} EscapedLength(s: string)
    ensures |Escaped(s)| == |s| + SpecialCount(s)
    decreases |s|
  {
    if s != [] {
      EscapedLength(s[1..]);
    }
  }

  /** A string without backslashes and quotes is left as it is. */
  lemma {:induction false} EscapedPlain(s: string)
    requires forall k | 0 <= k < |s| :: !Special(s[k])
    ensures Escaped(s) == s
    decreases |s|
  {
    if s != [] {
      EscapedPlain(s[1..]);
      assert [s[0]] + s[1..] == s;
    }
  }

  /** Escaping is injective: different strings never escape to the same text. */
  lemma {:induction false} EscapedInjective(s: string, t: string)
    requires Escaped(s) == Escaped(t)
    ensures s == t
    decreases |s|
  {
    if s != [] && t != [] {
      var a, b := Escaped(s), Escaped(t);
      assert a == EscapeChar(s[0]) + Escaped(s[1..]);
      assert b == EscapeChar(t[0]) + Escaped(t[1..]);
      assert s[0] == t[0] by {
        if Special(s[0]) { assert a[1] == s[0]; } else { assert a[0] == s[0]; }
        if Special(t[0]) { assert b[1] == t[0]; } else { assert b[0] == t[0]; }
      }
      assert Escaped(s[1..]) == a[|EscapeChar(s[0])|..];
      assert Escaped(t[1..]) == b[|EscapeChar(t[0])|..];
      EscapedInjective(s[1..], t[1..]);
      assert s == [s[0]] + s[1..] && t == [t[0]] + t[1..];
    }
  }
}
