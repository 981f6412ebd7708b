/**
 * A fixed order for the keys of a table. `table::print` (cpptoml.h:656-681)
 * walks an `unordered_map`, whose order is unspecified; the model prints keys in
 * lexicographic order of character codes instead.
 */
module KeyOrder {

  /** `a` comes no later than `b`. */
  predicate Below(a: string, b: string)
  {
    |a| == 0 || (|b| > 0 && (a[0] < b[0] || (a[0] == b[0] && Below(a[1..], b[1..]))))
  }

  lemma {:induction false} BelowTotal(a: string, b: string)
    ensures Below(a, b) || Below(b, a)
  {
    if |a| > 0 && |b| > 0 && a[0] == b[0] {
      BelowTotal(a[1..], b[1..]);
    }
  }

  lemma {:induction false} BelowAntisymmetric(a: string, b: string)
    requires Below(a, b) && Below(b, a)
    ensures a == b
  {
    if |a| > 0 && |b| > 0 {
      BelowAntisymmetric(a[1..], b[1..]);
      assert a == [a[0]] + a[1..] && b == [b[0]] + b[1..];
    }
  }

  lemma {:induction false} BelowTransitive(a: string, b: string, c: string)
    requires Below(a, b) && Below(b, c)
    ensures Below(a, c)
  {
    if |a| > 0 && a[0] == b[0] && b[0] == c[0] {
      BelowTransitive(a[1..], b[1..], c[1..]);
    }
  }

  /** Every non-empty set of keys has a first key. */
  lemma {:induction false} FirstExists(s: set<string>)
    requires s != {}
    ensures exists m | m in s :: forall x | x in s :: Below(m, x)
    decreases |s|
  {
    var y :| y in s;
    if s == {y} {
      BelowTotal(y, y);
    } else {
      var rest := s - {y};
      FirstExists(rest);
      var m :| m in rest && forall x | x in rest :: Below(m, x);
      BelowTotal(m, y);
      if Below(m, y) {
        assert forall x | x in s :: Below(m, x);
      } else {
        forall x | x in s
          ensures Below(y, x)
        {
          if x != y {
            BelowTransitive(y, m, x);
          } else {
            BelowTotal(y, y);
          }
        }
      }
    }
  }

  /** The first key of a non-empty set. */
  function First(s: set<string>): (m: string)
    requires s != {}
    ensures m in s && forall x | x in s :: Below(m, x)
  {
    FirstExists(s);
    forall a, b | Below(a, b) && Below(b, a)
      ensures a == b
    {
      BelowAntisymmetric(a, b);
    }
    var m :| m in s && forall x | x in s :: Below(m, x);
    m
  }

  /** The keys of `s` in increasing order, each once. */
  function Sorted(s: set<string>): (r: seq<string>)
    ensures |r| == |s|
    ensures forall k | k in s :: k in r
    ensures forall i | 0 <= i < |r| :: r[i] in s
    ensures forall i, j | 0 <= i < j < |r| :: Below(r[i], r[j]) && r[i] != r[j]
    decreases |s|
  {
    if s == {} then []
    else
      var m := First(s);
      [m] + Sorted(s - {m})
  }
}
