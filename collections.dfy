/** Sequence helpers: the set of a list's elements (`set(xs)`) and the number of distinct entries (`len(set(xs))`). */
module Collections {

  function Elements<T>(s: seq<T>): set<T>
  {
    set x | x in s
  }

  /** The number of distinct entries of a list, counted left to right: `len(set(s))`. */
  function DistinctCount<T(==)>(s: seq<T>): (n: nat)
    ensures n <= |s|
  {
    if |s| == 0 then 0
    else DistinctCount(s[..|s| - 1]) + (if s[|s| - 1] in s[..|s| - 1] then 0 else 1)
  }

  lemma {:induction false} DistinctCountIsCardinality<T>(s: seq<T>)
    ensures DistinctCount(s) == |Elements(s)|
  {
    if |s| > 0 {
      var prefix := s[..|s| - 1];
      var x := s[|s| - 1];
      DistinctCountIsCardinality(prefix);
      assert s == prefix + [x];
      assert Elements(s) == Elements(prefix) + {x};
      if x !in prefix {
        assert x !in Elements(prefix);
      }
    }
  }

  predicate Distinct<T(==)>(s: seq<T>)
  {
    forall i, j :: 0 <= i < j < |s| ==> s[i] != s[j]
  }

  /** A list without repetitions has as many distinct elements as entries. */
  lemma {:induction false} DistinctCardinality<T>(s: seq<T>)
    requires Distinct(s)
    ensures |Elements(s)| == |s|
    decreases |s|
  {
    if |s| > 0 {
      var prefix := s[..|s| - 1];
      DistinctCardinality(prefix);
      assert s == prefix + [s[|s| - 1]];
      assert Elements(s) == Elements(prefix) + {s[|s| - 1]};
      assert s[|s| - 1] !in Elements(prefix);
    }
  }

  /** `[f(x) for x in xs]`, built left to right. */
  function MapSeq<A, B>(f: A -> B, xs: seq<A>): (ys: seq<B>)
    ensures |ys| == |xs|
  {
    if |xs| == 0 then [] else MapSeq(f, xs[..|xs| - 1]) + [f(xs[|xs| - 1])]
  }

  lemma MapSeqSnoc<A, B>(f: A -> B, xs: seq<A>, x: A)
    ensures MapSeq(f, xs + [x]) == MapSeq(f, xs) + [f(x)]
  {
    assert (xs + [x])[..|xs|] == xs;
  }

  /** An element of the mapped list is the image of an element of the list, and back. */
  lemma {:induction false} MapSeqMembers<A, B>(f: A -> B, xs: seq<A>, y: B)
    ensures y in MapSeq(f, xs) <==> exists x :: x in xs && y == f(x)
  {
    if |xs| > 0 {
      var prefix := xs[..|xs| - 1];
      MapSeqMembers(f, prefix, y);
      assert xs == prefix + [xs[|xs| - 1]];
      if exists x :: x in xs && y == f(x) {
        var x :| x in xs && y == f(x);
        if x in prefix {
          assert y in MapSeq(f, prefix);
        }
      }
    }
  }

  /** A finite subset as large as its superset is the whole superset. */
  lemma SubsetOfSameSize<T>(a: set<T>, b: set<T>)
    requires a <= b && |a| == |b|
    ensures a == b
  {
    var d := b - a;
    assert b == a + d;
    assert a !! d;
    assert |b| == |a| + |d|;
    assert d == {};
  }
}
