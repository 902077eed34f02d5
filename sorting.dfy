/** The `Array.prototype.sort` calls of the core, both with comparators that put
    larger keys first. A key is a pair compared lexicographically; a sort on one
    number uses a constant second component. */
module Sorting {

  datatype Rank = Rank(major: int, minor: int)

  /** `a` is at most `b` in the lexicographic order on ranks. */
  predicate AtMost(a: Rank, b: Rank) {
    a.major < b.major || (a.major == b.major && a.minor <= b.minor)
  }

  /** Every element's rank is at least the rank of every element after it. */
  ghost predicate Descending<T>(s: seq<T>, rank: T -> Rank) {
    forall i, j :: 0 <= i < j < |s| ==> AtMost(rank(s[j]), rank(s[i]))
  }

  /** Places `x` in front of the first element whose rank does not exceed its own. */
  function Insert<T(==,!new)>(x: T, s: seq<T>, rank: T -> Rank): (r: seq<T>)
    requires Descending(s, rank)
    ensures multiset(r) == multiset(s) + multiset{x}
    ensures Descending(r, rank)
  {
    if s == [] || AtMost(rank(s[0]), rank(x)) then
      [x] + s
    else
      var tail := Insert(x, s[1..], rank);
      assert s == [s[0]] + s[1..];
      assert forall y :: y in tail ==> y in s[1..] || y == x by {
        forall y | y in tail ensures y in s[1..] || y == x {
          assert y in multiset(tail);
        }
      }
      assert forall j :: 0 <= j < |tail| ==> AtMost(rank(tail[j]), rank(s[0])) by {
        forall j | 0 <= j < |tail| ensures AtMost(rank(tail[j]), rank(s[0])) {
          assert tail[j] in tail;
        }
      }
      [s[0]] + tail
  }

  /** Insertion sort, largest rank first; an element is inserted in front of the
      equal-ranked ones, which all came after it in the input. */
  function SortDescending<T(==,!new)>(s: seq<T>, rank: T -> Rank): (r: seq<T>)
    ensures multiset(r) == multiset(s)
    ensures Descending(r, rank)
  {
    if s == [] then []
    else
      assert s == [s[0]] + s[1..];
      Insert(s[0], SortDescending(s[1..], rank), rank)
  }
}
