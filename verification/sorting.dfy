/** `Array.prototype.sort` with a comparator, specified by what it
    guarantees for a comparator that describes a total preorder: the result
    is a permutation of the input, ordered by the comparator. `le(a, b)`
    holds when the comparator allows `a` before `b`. Insertion sort is the
    reference definition; which of two equally ranked elements comes first
    is not promised by JavaScript and is not used anywhere in this model. */
module Sorting {

  ghost predicate Total<T(!new)>(le: (T, T) -> bool) {
    forall a, b :: le(a, b) || le(b, a)
  }

  ghost predicate Transitive<T(!new)>(le: (T, T) -> bool) {
    forall a, b, c :: le(a, b) && le(b, c) ==> le(a, c)
  }

  /** Every element may precede every later one. */
  predicate SortedBy<T>(s: seq<T>, le: (T, T) -> bool) {
    forall i, j :: 0 <= i < j < |s| ==> le(s[i], s[j])
  }

  function Insert<T(!new)>(x: T, s: seq<T>, le: (T, T) -> bool): (r: seq<T>)
    requires Total(le) && Transitive(le)
    requires SortedBy(s, le)
    ensures multiset(r) == multiset(s) + multiset{x}
    ensures SortedBy(r, le)
  {
    if s == [] then [x]
    else if le(x, s[0]) then
      assert forall j :: 0 < j < |s| ==> le(x, s[j]);
      [x] + s
    else
      var rest := Insert(x, s[1..], le);
      assert s == [s[0]] + s[1..];
      InsertAfterHead(s[0], s[1..], x, rest, le);
      [s[0]] + rest
  }

  /** When `x` goes after the head `h`, the head may precede every element
      of the sorted rest, so the head followed by the rest is sorted. */
  lemma InsertAfterHead<T(!new)>(h: T, tail: seq<T>, x: T, rest: seq<T>, le: (T, T) -> bool)
    requires Total(le) && Transitive(le)
    requires SortedBy([h] + tail, le) && !le(x, h)
    requires multiset(rest) == multiset(tail) + multiset{x} && SortedBy(rest, le)
    ensures SortedBy([h] + rest, le)
  {
    var r := [h] + rest;
    forall i, j | 0 <= i < j < |r| ensures le(r[i], r[j]) {
      if i == 0 {
        var y := rest[j - 1];
        assert y in multiset(rest);
        if y == x {
          assert le(x, h) || le(h, x);
        } else {
          assert y in multiset(tail);
          var k :| 0 <= k < |tail| && tail[k] == y;
          assert ([h] + tail)[0] == h && ([h] + tail)[k + 1] == y;
        }
      } else {
        assert r[i] == rest[i - 1] && r[j] == rest[j - 1];
      }
    }
  }

  /** The sorted permutation of `s` by `le`. */
  function SortBy<T(!new)>(s: seq<T>, le: (T, T) -> bool): (r: seq<T>)
    requires Total(le) && Transitive(le)
    ensures multiset(r) == multiset(s)
    ensures SortedBy(r, le)
  {
    if s == [] then []
    else
      assert s == [s[0]] + s[1..];
      Insert(s[0], SortBy(s[1..], le), le)
  }
}
