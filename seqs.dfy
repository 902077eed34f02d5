/** Sequence operations the core builds on: JavaScript's `Array.prototype.filter`
    and `Array.prototype.map`, and the order-preserving sub-list relation. */
module Seqs {

  /** `s.filter(p)`: the elements of `s` that satisfy `p`, in their original order. */
  function Filter<T(==,!new)>(s: seq<T>, p: T -> bool): (r: seq<T>)
    ensures |r| <= |s|
    ensures forall x :: x in r <==> x in s && p(x)
    ensures forall x :: multiset(r)[x] == if p(x) then multiset(s)[x] else 0
  {
    if s == [] then []
    else
      assert s == [s[0]] + s[1..];
      (if p(s[0]) then [s[0]] else []) + Filter(s[1..], p)
  }

  /** `s.map(f)`. */
  function Map<T, U>(s: seq<T>, f: T -> U): (r: seq<U>)
    ensures |r| == |s|
    ensures forall i :: 0 <= i < |s| ==> r[i] == f(s[i])
  {
    if s == [] then [] else [f(s[0])] + Map(s[1..], f)
  }

  /** An element of `s` whose image passes `p` is kept by mapping, then filtering. */
  lemma MapFilterHas<T, U(!new)>(s: seq<T>, f: T -> U, p: U -> bool, i: int)
    requires 0 <= i < |s| && p(f(s[i]))
    ensures f(s[i]) in Filter(Map(s, f), p)
  {
    assert Map(s, f)[i] == f(s[i]);
  }

  /** `a` is obtained from `b` by deleting elements, keeping the order of the rest. */
  predicate IsSubsequence<T(==,!new)>(a: seq<T>, b: seq<T>)
    decreases |b|
  {
    a == [] || (b != [] && ((a[0] == b[0] && IsSubsequence(a[1..], b[1..])) || IsSubsequence(a, b[1..])))
  }

  lemma {:induction false} FilterIsSubsequence<T(!new)>(s: seq<T>, p: T -> bool)
    ensures IsSubsequence(Filter(s, p), s)
  {
    if s != [] {
      FilterIsSubsequence(s[1..], p);
      if p(s[0]) {
        assert Filter(s, p) == [s[0]] + Filter(s[1..], p);
        assert Filter(s, p)[1..] == Filter(s[1..], p);
      } else {
        assert Filter(s, p) == Filter(s[1..], p);
      }
    }
  }

  /** Filtering with a predicate every element satisfies changes nothing. */
  lemma {:induction false} FilterKeepsAll<T(!new)>(s: seq<T>, p: T -> bool)
    requires forall x :: x in s ==> p(x)
    ensures Filter(s, p) == s
  {
    if s != [] {
      FilterKeepsAll(s[1..], p);
    }
  }

  /** Two filters applied one after the other commute. */
  lemma {:induction false} FilterCommutes<T(!new)>(s: seq<T>, p: T -> bool, q: T -> bool)
    ensures Filter(Filter(s, p), q) == Filter(Filter(s, q), p)
  {
    if s != [] {
      FilterCommutes(s[1..], p, q);
      var x := s[0];
      assert Filter(s, p) == (if p(x) then [x] else []) + Filter(s[1..], p);
      assert Filter(s, q) == (if q(x) then [x] else []) + Filter(s[1..], q);
      FilterAppend((if p(x) then [x] else []), Filter(s[1..], p), q);
      FilterAppend((if q(x) then [x] else []), Filter(s[1..], q), p);
    }
  }

  /** Two filters in a row keep what one filter on both tests keeps. */
  lemma {:induction false} FilterFuse<T(!new)>(s: seq<T>, p: T -> bool, q: T -> bool)
    ensures Filter(Filter(s, p), q) == Filter(s, (x: T) => p(x) && q(x))
  {
    if s != [] {
      FilterFuse(s[1..], p, q);
      var x := s[0];
      assert Filter(s, p) == (if p(x) then [x] else []) + Filter(s[1..], p);
      FilterAppend((if p(x) then [x] else []), Filter(s[1..], p), q);
    }
  }

  /** Two filters in a row keep the order of what they keep. */
  lemma FilterFilterIsSubsequence<T(!new)>(s: seq<T>, p: T -> bool, q: T -> bool)
    ensures IsSubsequence(Filter(Filter(s, p), q), s)
  {
    FilterFuse(s, p, q);
    FilterIsSubsequence(s, (x: T) => p(x) && q(x));
  }

  /** Filtering distributes over concatenation. */
  lemma {:induction false} FilterAppend<T(!new)>(a: seq<T>, b: seq<T>, p: T -> bool)
    ensures Filter(a + b, p) == Filter(a, p) + Filter(b, p)
  {
    if a == [] {
      assert a + b == b;
    } else {
      var x, rest := a[0], a[1..];
      var head := if p(x) then [x] else [];
      FilterAppend(rest, b, p);
      var ab := a + b;
      TailOfAppend(a, b);
      assert Filter(ab, p) == head + Filter(rest + b, p);
      assert Filter(a, p) == head + Filter(rest, p);
      AppendAssoc(head, Filter(rest, p), Filter(b, p));
    }
  }

  /** The first element and the rest of a concatenation with a non-empty front. */
  lemma TailOfAppend<T>(a: seq<T>, b: seq<T>)
    requires a != []
    ensures (a + b)[0] == a[0] && (a + b)[1..] == a[1..] + b
  {
  }

  /** Concatenation is associative. */
  lemma AppendAssoc<T>(x: seq<T>, y: seq<T>, z: seq<T>)
    ensures x + (y + z) == (x + y) + z
  {
  }
}
