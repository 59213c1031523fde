/**
 * Row selection by a boolean mask (`df[mask]` in pandas) and the facts the
 * timeline relies on: the kept rows form an order-preserving subsequence,
 * exactly the matching rows are kept with their multiplicities, and two
 * selections in a row are one selection by the conjunction.
 */
module Sequences {

  /** The rows of `rows` for which `keep` holds, in their original order. */
  function Select<T>(rows: seq<T>, keep: T -> bool): (r: seq<T>)
    ensures |r| <= |rows|
    ensures forall x :: x in r ==> x in rows && keep(x)
  {
    if rows == [] then []
    else (if keep(rows[0]) then [rows[0]] else []) + Select(rows[1..], keep)
  }

  /** `r` is obtained from `s` by deleting some elements; the rest keep their order. */
  predicate IsSubsequence<T(==)>(r: seq<T>, s: seq<T>)
  {
    if r == [] then true
    else if s == [] then false
    else (r[0] == s[0] && IsSubsequence(r[1..], s[1..])) || IsSubsequence(r, s[1..])
  }

  /** A selection never reorders or invents rows. */
  lemma {:induction false} SelectIsSubsequence<T>(rows: seq<T>, keep: T -> bool)
    ensures IsSubsequence(Select(rows, keep), rows)
  {
    if rows != [] {
      SelectIsSubsequence(rows[1..], keep);
      var tail := Select(rows[1..], keep);
      if keep(rows[0]) {
        assert Select(rows, keep) == [rows[0]] + tail;
        assert ([rows[0]] + tail)[1..] == tail;
      } else {
        assert Select(rows, keep) == tail;
        if tail != [] {
          assert IsSubsequence(tail, rows[1..]);
        }
      }
    }
  }

  /** Every row that matches is kept as often as it occurs; every other row is dropped. */
  lemma {:induction false} SelectCounts<T>(rows: seq<T>, keep: T -> bool)
    ensures forall x ::
      multiset(Select(rows, keep))[x] == if keep(x) then multiset(rows)[x] else 0
  {
    if rows != [] {
      SelectCounts(rows[1..], keep);
      assert rows == [rows[0]] + rows[1..];
      assert multiset(rows) == multiset([rows[0]]) + multiset(rows[1..]);
    }
  }

  /** A row is in the selection iff it is a row of the input and it matches. */
  lemma SelectMembership<T>(rows: seq<T>, keep: T -> bool)
    ensures forall x :: x in Select(rows, keep) <==> x in rows && keep(x)
  {
    SelectCounts(rows, keep);
    forall x
      ensures x in Select(rows, keep) <==> x in rows && keep(x)
    {
      assert x in Select(rows, keep) <==> multiset(Select(rows, keep))[x] > 0;
      assert x in rows <==> multiset(rows)[x] > 0;
    }
  }

  /** When every row matches, the selection is the input itself. */
  lemma {:induction false} SelectAll<T>(rows: seq<T>, keep: T -> bool)
    requires forall i :: 0 <= i < |rows| ==> keep(rows[i])
    ensures Select(rows, keep) == rows
  {
    if rows != [] {
      SelectAll(rows[1..], keep);
    }
  }

  /** Selecting by `p` and then by `q` is selecting once by `p && q` (`both`). */
  lemma {:induction false} SelectSelect<T>(rows: seq<T>, p: T -> bool, q: T -> bool, both: T -> bool)
    requires forall x :: both(x) == (p(x) && q(x))
    ensures Select(Select(rows, p), q) == Select(rows, both)
  {
    if rows != [] {
      SelectSelect(rows[1..], p, q, both);
      var x := rows[0];
      if p(x) {
        assert Select(rows, p) == [x] + Select(rows[1..], p);
        assert ([x] + Select(rows[1..], p))[1..] == Select(rows[1..], p);
      } else {
        assert Select(rows, p) == Select(rows[1..], p);
      }
    }
  }

  /** Two selections commute. */
  lemma SelectCommutes<T>(rows: seq<T>, p: T -> bool, q: T -> bool)
    ensures Select(Select(rows, p), q) == Select(Select(rows, q), p)
  {
    var both := x => p(x) && q(x);
    SelectSelect(rows, p, q, both);
    SelectSelect(rows, q, p, both);
  }

  /** Selecting again by the same mask changes nothing. */
  lemma SelectIdempotent<T>(rows: seq<T>, keep: T -> bool)
    ensures Select(Select(rows, keep), keep) == Select(rows, keep)
  {
    SelectSelect(rows, keep, keep, keep);
  }
}
