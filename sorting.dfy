/**
 * `sorted(column.dropna().unique())`: the distinct values of a column, in
 * Python's ascending `str` order, each once.
 */
module Sorting {
  import opened Text

  /** Each value is smaller than every later one: sorted and free of duplicates. */
  predicate StrictlyIncreasing(s: seq<string>)
  {
    forall i, j :: 0 <= i < j < |s| ==> StrLess(s[i], s[j])
  }

  /** Puts `x` into its place in a strictly increasing list, unless it is already there. */
  function Insert(x: string, s: seq<string>): (r: seq<string>)
    requires StrictlyIncreasing(s)
    ensures StrictlyIncreasing(r)
    ensures forall v :: v in r <==> v == x || v in s
  {
    if s == [] then [x]
    else if x == s[0] then s
    else if StrLess(x, s[0]) then
      assert forall j :: 0 < j < |s| ==> StrLess(x, s[j]) by {
        forall j | 0 < j < |s| ensures StrLess(x, s[j]) {
          StrLessTransitive(x, s[0], s[j]);
        }
      }
      [x] + s
    else
      var tail := Insert(x, s[1..]);
      assert StrLess(s[0], x) by { StrLessConnected(x, s[0]); }
      assert forall v :: v in tail ==> StrLess(s[0], v) by {
        forall v | v in tail ensures StrLess(s[0], v) {
          if v != x {
            var j :| 0 <= j < |s[1..]| && s[1..][j] == v;
            assert s[j + 1] == v;
          }
        }
      }
      [s[0]] + tail
  }

  /** The distinct values of `values`, ascending. */
  function SortedDistinct(values: seq<string>): (r: seq<string>)
    ensures StrictlyIncreasing(r)
    ensures forall v :: v in r <==> v in values
  {
    if values == [] then []
    else
      var r := Insert(values[|values| - 1], SortedDistinct(values[..|values| - 1]));
      assert forall v :: v in values <==> v in values[..|values| - 1] || v == values[|values| - 1] by {
        assert values == values[..|values| - 1] + [values[|values| - 1]];
      }
      r
  }

  /**
   * A strictly increasing list is fixed by the set of its values, so the
   * option list does not depend on the order in which values are met.
   */
  lemma {:induction false} StrictlyIncreasingUnique(a: seq<string>, b: seq<string>)
    requires StrictlyIncreasing(a) && StrictlyIncreasing(b)
    requires forall v :: v in a <==> v in b
    ensures a == b
  {
    if a != [] {
      assert a[0] in b;
    }
    if b != [] {
      assert b[0] in a;
    }
    if a != [] && b != [] {
      assert a[0] == b[0] by {
        if a[0] != b[0] {
          assert a[0] in b;
          assert b[0] in a;
          var i :| 0 < i < |a| && a[i] == b[0];
          var j :| 0 < j < |b| && b[j] == a[0];
          assert StrLess(a[0], b[0]);
          assert StrLess(b[0], a[0]);
          StrLessAsymmetric(a[0], b[0]);
        }
      }
      assert a == [a[0]] + a[1..] && b == [b[0]] + b[1..];
      forall v
        ensures v in a[1..] <==> v in b[1..]
      {
        if v in a[1..] {
          var i :| 1 <= i < |a| && a[i] == v;
          assert StrLess(a[0], v);
          StrLessIrreflexive(v);
          assert v in a && v in b;
          var j :| 0 <= j < |b| && b[j] == v;
          assert j != 0;
          assert b[1..][j - 1] == v;
        }
        if v in b[1..] {
          var j :| 1 <= j < |b| && b[j] == v;
          assert StrLess(b[0], v);
          StrLessIrreflexive(v);
          assert v in b && v in a;
          var i :| 0 <= i < |a| && a[i] == v;
          assert i != 0;
          assert a[1..][i - 1] == v;
        }
      }
      StrictlyIncreasingUnique(a[1..], b[1..]);
    }
  }
}
