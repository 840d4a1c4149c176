/**
 * `Array.prototype.sort` with a comparator, modelled as a stable insertion sort: an element
 * moves left past every element the comparator ranks after it (`gt(e, x)` is "the comparator
 * returns a positive number for `(e, x)`").
 */
module Sorting {

  /** Inserts `x` after the last element that does not compare greater than it. */
  function Insert<T>(xs: seq<T>, x: T, gt: (T, T) -> bool): (r: seq<T>)
    ensures multiset(r) == multiset(xs) + multiset{x}
    decreases |xs|
  {
    if xs == [] then [x]
    else if gt(xs[|xs| - 1], x) then
      assert xs == xs[..|xs| - 1] + [xs[|xs| - 1]];
      Insert(xs[..|xs| - 1], x, gt) + [xs[|xs| - 1]]
    else xs + [x]
  }

  /** Sorts `s` by inserting its elements one at a time, in input order. */
  function Sort<T>(s: seq<T>, gt: (T, T) -> bool): (r: seq<T>)
    ensures multiset(r) == multiset(s)
    decreases |s|
  {
    if s == [] then []
    else
      assert s == s[..|s| - 1] + [s[|s| - 1]];
      Insert(Sort(s[..|s| - 1], gt), s[|s| - 1], gt)
  }

  /** No element is ranked after a later one. */
  predicate SortedBy<T>(r: seq<T>, gt: (T, T) -> bool) {
    forall i, j | 0 <= i < j < |r| :: !gt(r[i], r[j])
  }

  /**
   * `gt` behaves as a comparator must on the values in `u`: it is asymmetric, and "not
   * greater" is transitive (a strict weak order).
   */
  ghost predicate StrictWeakOn<T>(gt: (T, T) -> bool, u: set<T>) {
    && (forall a, b | a in u && b in u :: gt(a, b) ==> !gt(b, a))
    && (forall a, b, c | a in u && b in u && c in u :: !gt(a, b) && !gt(b, c) ==> !gt(a, c))
  }

  lemma {:induction false} InsertSorted<T>(xs: seq<T>, x: T, gt: (T, T) -> bool, u: set<T>)
    requires StrictWeakOn(gt, u)
    requires forall e | e in xs :: e in u
    requires x in u
    requires SortedBy(xs, gt)
    ensures SortedBy(Insert(xs, x, gt), gt)
    decreases |xs|
  {
    if xs != [] {
      var n := |xs| - 1;
      var last := xs[n];
      if gt(last, x) {
        var front := xs[..n];
        InsertSorted(front, x, gt, u);
        var ins := Insert(front, x, gt);
        forall i | 0 <= i < |ins|
          ensures !gt(ins[i], last)
        {
          assert ins[i] in multiset(ins);
          if ins[i] != x {
            assert ins[i] in multiset(front);
            var k :| 0 <= k < |front| && front[k] == ins[i];
            assert xs[k] == ins[i];
          }
        }
        assert Insert(xs, x, gt) == ins + [last];
      } else {
        forall i | 0 <= i < n + 1
          ensures !gt(xs[i], x)
        {
          if i < n {
            assert !gt(xs[i], last);
          }
        }
      }
    }
  }

  /** Under a strict weak order, the sort returns its input in order. */
  lemma {:induction false} SortSorted<T>(s: seq<T>, gt: (T, T) -> bool, u: set<T>)
    requires StrictWeakOn(gt, u)
    requires forall e | e in s :: e in u
    ensures SortedBy(Sort(s, gt), gt)
    decreases |s|
  {
    if s != [] {
      var front := s[..|s| - 1];
      assert forall e | e in front :: e in s;
      SortSorted(front, gt, u);
      var sorted := Sort(front, gt);
      forall e | e in sorted
        ensures e in u
      {
        assert e in multiset(sorted);
      }
      InsertSorted(sorted, s[|s| - 1], gt, u);
    }
  }

  /** Sorting already-sorted input changes nothing: each element is appended where it stands. */
  lemma {:induction false} SortOfSorted<T>(s: seq<T>, gt: (T, T) -> bool)
    requires SortedBy(s, gt)
    ensures Sort(s, gt) == s
    decreases |s|
  {
    if s != [] {
      var front := s[..|s| - 1];
      SortOfSorted(front, gt);
      if |front| > 0 {
        assert !gt(front[|front| - 1], s[|s| - 1]);
      }
      assert front + [s[|s| - 1]] == s;
    }
  }
}
