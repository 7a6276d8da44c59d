/** Filtering a sequence, and what it means for one sequence to be split into two. */
module Seqs {

  /** The elements of `s` that satisfy `p`, in their original order
      (JavaScript's `Array.prototype.filter`). */
  function Filter<T(!new)>(s: seq<T>, p: T -> bool): (r: seq<T>)
    ensures |r| <= |s|
    ensures forall x :: x in r <==> x in s && p(x)
    ensures forall i :: 0 <= i < |r| ==> p(r[i])
  {
    if |s| == 0 then []
    else if p(s[0]) then [s[0]] + Filter(s[1..], p)
    else Filter(s[1..], p)
  }

  /** No two elements of `s` share a key. */
  ghost predicate DistinctBy<T, K>(s: seq<T>, key: T -> K) {
    forall i, j :: 0 <= i < j < |s| ==> key(s[i]) != key(s[j])
  }

  /** `c` is an interleaving of `a` and `b`: every position of `c` is taken, in order,
      from exactly one of the two, and both are used up. */
  ghost predicate Interleaves<T>(c: seq<T>, a: seq<T>, b: seq<T>)
    decreases |c|
  {
    if |c| == 0 then a == [] && b == []
    else
      || (|a| > 0 && a[0] == c[0] && Interleaves(c[1..], a[1..], b))
      || (|b| > 0 && b[0] == c[0] && Interleaves(c[1..], a, b[1..]))
  }

  /** Filtering by a predicate and by its negation splits a sequence into two parts
      that together hold every element exactly once, each in its original order. */
  lemma {:induction false} FilterSplits<T(!new)>(s: seq<T>, p: T -> bool, q: T -> bool)
    requires forall x :: q(x) == !p(x)
    ensures Interleaves(s, Filter(s, p), Filter(s, q))
    decreases |s|
  {
    if |s| > 0 {
      FilterSplits(s[1..], p, q);
      if p(s[0]) {
        assert Filter(s, p)[1..] == Filter(s[1..], p);
        assert Filter(s, q) == Filter(s[1..], q);
      } else {
        assert Filter(s, p) == Filter(s[1..], p);
        assert Filter(s, q)[1..] == Filter(s[1..], q);
      }
    }
  }

  /** An interleaving is a permutation of the two parts taken together. */
  lemma {:induction false} InterleavingKeepsElements<T>(c: seq<T>, a: seq<T>, b: seq<T>)
    requires Interleaves(c, a, b)
    ensures multiset(c) == multiset(a) + multiset(b)
    decreases |c|
  {
    if |c| > 0 {
      assert c == [c[0]] + c[1..];
      if |a| > 0 && a[0] == c[0] && Interleaves(c[1..], a[1..], b) {
        InterleavingKeepsElements(c[1..], a[1..], b);
        assert a == [a[0]] + a[1..];
      } else {
        InterleavingKeepsElements(c[1..], a, b[1..]);
        assert b == [b[0]] + b[1..];
      }
    }
  }
}
