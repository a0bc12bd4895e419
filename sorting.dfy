/**
 * Sorting by a total preorder, used wherever the programs call a library sort
 * (Go's sort.Slice, sort.Strings and sort.Sort). The library only promises a
 * sorted permutation; this insertion sort is one way of meeting that promise.
 */
module Sorting {

  /** `le` relates every pair one way or the other and is transitive. */
  ghost predicate TotalPreorder<T(!new)>(le: (T, T) -> bool) {
    && (forall a, b :: le(a, b) || le(b, a))
    && (forall a, b, c :: le(a, b) && le(b, c) ==> le(a, c))
  }

  predicate SortedBy<T>(le: (T, T) -> bool, s: seq<T>) {
    forall i, j :: 0 <= i < j < |s| ==> le(s[i], s[j])
  }

  /** Places `x` in front of the first element it may precede. */
  function Insert<T(!new)>(le: (T, T) -> bool, x: T, s: seq<T>): (r: seq<T>)
    requires TotalPreorder(le)
    requires SortedBy(le, s)
    ensures multiset(r) == multiset(s) + multiset{x}
    ensures SortedBy(le, r)
  {
    if s == [] then [x]
    else if le(x, s[0]) then
      InsertFront(le, x, s);
      [x] + s
    else
      var tail := Insert(le, x, s[1..]);
      assert s == [s[0]] + s[1..];
      InsertBehind(le, x, s, tail);
      [s[0]] + tail
  }

  lemma InsertFront<T(!new)>(le: (T, T) -> bool, x: T, s: seq<T>)
    requires TotalPreorder(le)
    requires SortedBy(le, s) && s != [] && le(x, s[0])
    ensures SortedBy(le, [x] + s)
  {
    var r := [x] + s;
    forall i, j | 0 <= i < j < |r| ensures le(r[i], r[j]) {
      if i == 0 && j > 1 { assert le(x, s[0]) && le(s[0], s[j - 1]); }
    }
  }

  /** The head stays in front of a sorted tail that holds the rest and `x`. */
  lemma InsertBehind<T(!new)>(le: (T, T) -> bool, x: T, s: seq<T>, tail: seq<T>)
    requires TotalPreorder(le)
    requires SortedBy(le, s) && s != [] && le(s[0], x)
    requires SortedBy(le, tail) && multiset(tail) == multiset(s[1..]) + multiset{x}
    ensures SortedBy(le, [s[0]] + tail)
  {
    var r := [s[0]] + tail;
    forall i, j | 0 <= i < j < |r| ensures le(r[i], r[j]) {
      if i == 0 {
        var y := tail[j - 1];
        assert y in multiset(tail);
        if y != x {
          assert y in multiset(s[1..]);
          var k :| 0 <= k < |s[1..]| && s[1..][k] == y;
          assert s[k + 1] == y;
        }
      }
    }
  }

  function Sort<T(!new)>(le: (T, T) -> bool, s: seq<T>): (r: seq<T>)
    requires TotalPreorder(le)
    ensures multiset(r) == multiset(s)
    ensures |r| == |s|
    ensures SortedBy(le, r)
  {
    if s == [] then []
    else
      assert s == [s[0]] + s[1..];
      Insert(le, s[0], Sort(le, s[1..]))
  }
}
