/** `Array.prototype.filter`, counting and summing over JavaScript arrays. */
module Lists {

  /** `s.filter(p)`: the elements that satisfy `p`, in their original order. */
  function Filter<T>(s: seq<T>, p: T -> bool): (r: seq<T>)
    ensures |r| <= |s|
    ensures forall x | x in r :: p(x) && x in s
    ensures forall x | x in s && p(x) :: x in r
    decreases |s|
  {
    if s == [] then [] else (if p(s[0]) then [s[0]] else []) + Filter(s[1..], p)
  }

  /** `s.filter(p).length`. */
  function Count<T>(s: seq<T>, p: T -> bool): (n: nat)
    ensures n <= |s|
    ensures n == 0 <==> forall x | x in s :: !p(x)
    ensures n == |s| <==> forall x | x in s :: p(x)
  {
    FilterAllOrNothing(s, p);
    var r := Filter(s, p);
    assert |r| > 0 ==> r[0] in r;
    |r|
  }

  lemma {:induction false} FilterAllOrNothing<T>(s: seq<T>, p: T -> bool)
    ensures |Filter(s, p)| == |s| <==> forall x | x in s :: p(x)
    ensures (forall x | x in s :: p(x)) ==> Filter(s, p) == s
    decreases |s|
  {
    if s != [] {
      FilterAllOrNothing(s[1..], p);
      assert s == [s[0]] + s[1..];
      if !p(s[0]) {
        assert |Filter(s, p)| < |s|;
      } else if exists x | x in s[1..] :: !p(x) {
        assert |Filter(s[1..], p)| < |s[1..]|;
      }
    }
  }

  /** Filtering distributes over concatenation. */
  lemma {:induction false} FilterAppend<T>(a: seq<T>, b: seq<T>, p: T -> bool)
    ensures Filter(a + b, p) == Filter(a, p) + Filter(b, p)
    decreases |a|
  {
    if a == [] {
      assert a + b == b;
    } else {
      assert (a + b)[1..] == a[1..] + b;
      FilterAppend(a[1..], b, p);
    }
  }

  /** A filter keeps its elements in their original order. */
  lemma {:induction false} FilterSubseq<T>(s: seq<T>, p: T -> bool)
    ensures IsSubseq(Filter(s, p), s)
    decreases |s|
  {
    if s != [] {
      FilterSubseq(s[1..], p);
      var r := Filter(s, p);
      if p(s[0]) {
        assert r[0] == s[0] && r[1..] == Filter(s[1..], p);
      } else {
        assert r == Filter(s[1..], p);
      }
    }
  }

  /** Two filters in a row keep what both conditions keep. */
  lemma {:induction false} FilterFilter<T>(s: seq<T>, p: T -> bool, q: T -> bool)
    ensures Filter(Filter(s, p), q) == Filter(s, x => p(x) && q(x))
    decreases |s|
  {
    if s != [] {
      FilterFilter(s[1..], p, q);
      var head := if p(s[0]) then [s[0]] else [];
      FilterAppend(head, Filter(s[1..], p), q);
    }
  }

  /** Two filters in a row are one filter by any condition that holds exactly when both do. */
  lemma FilterFilterAs<T>(s: seq<T>, p: T -> bool, q: T -> bool, both: T -> bool)
    requires forall x :: both(x) == (p(x) && q(x))
    ensures Filter(Filter(s, p), q) == Filter(s, both)
  {
    FilterFilter(s, p, q);
    FilterSame(s, x => p(x) && q(x), both);
  }

  /** Filters with conditions that agree on every element give the same result. */
  lemma {:induction false} FilterSame<T>(s: seq<T>, p: T -> bool, q: T -> bool)
    requires forall x | x in s :: p(x) == q(x)
    ensures Filter(s, p) == Filter(s, q)
    decreases |s|
  {
    if s != [] {
      assert forall x | x in s[1..] :: x in s;
      FilterSame(s[1..], p, q);
    }
  }

  /** Counting looks at the first element, then at the rest. */
  lemma CountCons<T>(s: seq<T>, p: T -> bool)
    requires s != []
    ensures Count(s, p) == (if p(s[0]) then 1 else 0) + Count(s[1..], p)
  {
  }

  /** The positions of `s` whose element satisfies `p`. */
  function Positions<T>(s: seq<T>, p: T -> bool): set<int> {
    set i | 0 <= i < |s| && p(s[i])
  }

  /** `s.filter(p).length` is the number of positions whose element satisfies `p`. */
  lemma {:induction false} CountIndices<T>(s: seq<T>, p: T -> bool)
    ensures Count(s, p) == |Positions(s, p)|
    decreases |s|
  {
    if s != [] {
      var front, last := s[..|s| - 1], s[|s| - 1];
      assert s == front + [last];
      CountIndices(front, p);
      CountSnoc(front, last, p);
      PositionsSnoc(front, last, p);
    }
  }

  lemma CountSnoc<T>(front: seq<T>, last: T, p: T -> bool)
    ensures Count(front + [last], p) == Count(front, p) + if p(last) then 1 else 0
  {
    FilterAppend(front, [last], p);
  }

  lemma PositionsSnoc<T>(front: seq<T>, last: T, p: T -> bool)
    ensures Positions(front + [last], p) == Positions(front, p) + if p(last) then {|front|} else {}
    ensures |front| !in Positions(front, p)
  {
    var s := front + [last];
    forall i | 0 <= i < |front| ensures s[i] == front[i] {
    }
  }

  /** Counting a condition that holds of exactly one value counts that value's occurrences. */
  lemma {:induction false} CountIsMultiplicity<T>(s: seq<T>, p: T -> bool, x: T)
    requires forall y :: p(y) <==> y == x
    ensures Count(s, p) == multiset(s)[x]
    decreases |s|
  {
    if s != [] {
      CountIsMultiplicity(s[1..], p, x);
      CountCons(s, p);
      MultisetCons(s);
    }
  }

  lemma MultisetCons<T>(s: seq<T>)
    requires s != []
    ensures multiset(s) == multiset{s[0]} + multiset(s[1..])
  {
    assert s == [s[0]] + s[1..];
  }

  /** An element is either kept or dropped: the counts of a condition and its negation add up to the length. */
  lemma {:induction false} CountSplit<T>(s: seq<T>, p: T -> bool, q: T -> bool)
    requires forall x | x in s :: q(x) == !p(x)
    ensures Count(s, p) + Count(s, q) == |s|
    decreases |s|
  {
    if s != [] {
      assert forall x | x in s[1..] :: x in s;
      CountSplit(s[1..], p, q);
      CountCons(s, p);
      CountCons(s, q);
    }
  }

  /** A condition and its negation split a list: together the two filters hold every element once. */
  lemma {:induction false} FilterPartition<T>(s: seq<T>, p: T -> bool, q: T -> bool)
    requires forall x :: q(x) == !p(x)
    ensures multiset(Filter(s, p)) + multiset(Filter(s, q)) == multiset(s)
    decreases |s|
  {
    if s != [] {
      var x, rest := s[0], s[1..];
      FilterPartition(rest, p, q);
      var a, b := multiset(Filter(rest, p)), multiset(Filter(rest, q));
      assert s == [x] + rest;
      assert multiset(s) == multiset{x} + multiset(rest);
      if p(x) {
        assert Filter(s, p) == [x] + Filter(rest, p);
        assert Filter(s, q) == Filter(rest, q);
        AddFront(multiset{x}, a, b);
      } else {
        assert Filter(s, p) == Filter(rest, p);
        assert Filter(s, q) == [x] + Filter(rest, q);
        AddMiddle(multiset{x}, a, b);
      }
    }
  }

  lemma AddFront<T>(x: multiset<T>, a: multiset<T>, b: multiset<T>)
    ensures (x + a) + b == x + (a + b)
  {
  }

  lemma AddMiddle<T>(x: multiset<T>, a: multiset<T>, b: multiset<T>)
    ensures a + (x + b) == x + (a + b)
  {
  }

  function Sum(s: seq<int>): int
    decreases |s|
  {
    if s == [] then 0 else s[0] + Sum(s[1..])
  }

  /** `f` applied to each element, in order. */
  function Map<T, U>(s: seq<T>, f: T -> U): (r: seq<U>)
    ensures |r| == |s| && forall k | 0 <= k < |s| :: r[k] == f(s[k])
    decreases |s|
  {
    if s == [] then [] else [f(s[0])] + Map(s[1..], f)
  }

  /** `a` is `b` with some elements left out: its elements occur in `b` in the same order. */
  predicate IsSubseq<T(==)>(a: seq<T>, b: seq<T>)
    decreases |b|
  {
    if a == [] then true
    else if b == [] then false
    else (a[0] == b[0] && IsSubseq(a[1..], b[1..])) || IsSubseq(a, b[1..])
  }

  /** The first components of a list of pairs, in order: the keys of an association list. */
  function Firsts<K, V>(s: seq<(K, V)>): (ks: seq<K>)
    ensures |ks| == |s| && forall i | 0 <= i < |s| :: ks[i] == s[i].0
  {
    seq(|s|, i requires 0 <= i < |s| => s[i].0)
  }

  lemma MapCons<T, U>(x: T, s: seq<T>, f: T -> U)
    ensures Map([x] + s, f) == [f(x)] + Map(s, f)
  {
    assert ([x] + s)[1..] == s;
  }

  /** The images of the two halves of a partition make up the image of the whole list. */
  lemma {:induction false} MapFilterPartition<T, U>(s: seq<T>, p: T -> bool, q: T -> bool, f: T -> U)
    requires forall x :: q(x) == !p(x)
    ensures multiset(Map(Filter(s, p), f)) + multiset(Map(Filter(s, q), f)) == multiset(Map(s, f))
    decreases |s|
  {
    if s != [] {
      var x, rest := s[0], s[1..];
      MapFilterPartition(rest, p, q, f);
      assert s == [x] + rest;
      MapCons(x, rest, f);
      if p(x) {
        assert Filter(s, p) == [x] + Filter(rest, p);
        assert Filter(s, q) == Filter(rest, q);
        MapCons(x, Filter(rest, p), f);
      } else {
        assert Filter(s, p) == Filter(rest, p);
        assert Filter(s, q) == [x] + Filter(rest, q);
        MapCons(x, Filter(rest, q), f);
      }
    }
  }

  /** A weaker condition keeps at least as many elements. */
  lemma {:induction false} FilterMonotone<T>(s: seq<T>, p: T -> bool, q: T -> bool)
    requires forall x :: p(x) ==> q(x)
    ensures |Filter(s, p)| <= |Filter(s, q)|
    ensures Count(s, p) <= Count(s, q)
    decreases |s|
  {
    if s != [] {
      FilterMonotone(s[1..], p, q);
    }
  }
}
