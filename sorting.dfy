/** Sorting by a caller-supplied order, as Go's `sort.Sort` / `sort.Strings` do. */
module Sorting {

  /** `le` is total and transitive: what `sort.Interface.Less` must provide. */
  ghost predicate TotalPreorder<T(!new)>(le: (T, T) -> bool) {
    && (forall a, b :: le(a, b) || le(b, a))
    && (forall a, b, c :: le(a, b) && le(b, c) ==> le(a, c))
  }

  /** `le` relates two elements both ways only when they are equal. */
  ghost predicate Antisymmetric<T(!new)>(le: (T, T) -> bool) {
    forall a, b :: le(a, b) && le(b, a) ==> a == b
  }

  ghost predicate SortedBy<T>(xs: seq<T>, le: (T, T) -> bool) {
    forall i, j :: 0 <= i < j < |xs| ==> le(xs[i], xs[j])
  }

  /** Inserts `x` into the sorted `xs` before the first element it does not exceed. */
  function Insert<T(!new)>(x: T, xs: seq<T>, le: (T, T) -> bool): (r: seq<T>)
    requires TotalPreorder(le) && SortedBy(xs, le)
    ensures SortedBy(r, le)
    ensures multiset(r) == multiset(xs) + multiset{x}
    ensures |r| == |xs| + 1
  {
    if xs == [] then [x]
    else if le(x, xs[0]) then [x] + xs
    else
      var tail := Insert(x, xs[1..], le);
      assert xs == [xs[0]] + xs[1..];
      HeadBelowAll(x, xs, tail, le);
      [xs[0]] + tail
  }

  lemma HeadBelowAll<T(!new)>(x: T, xs: seq<T>, tail: seq<T>, le: (T, T) -> bool)
    requires TotalPreorder(le) && SortedBy(xs, le) && xs != [] && !le(x, xs[0])
    requires SortedBy(tail, le) && multiset(tail) == multiset(xs[1..]) + multiset{x}
    ensures SortedBy([xs[0]] + tail, le)
  {
    forall j | 0 <= j < |tail| ensures le(xs[0], tail[j]) {
      assert tail[j] in multiset(tail);
      if tail[j] != x {
        assert tail[j] in multiset(xs[1..]);
        var k :| 0 <= k < |xs[1..]| && xs[1..][k] == tail[j];
        assert xs[k + 1] == tail[j];
      }
    }
  }

  /** The model of the library sort: the result is sorted and a permutation of the input. */
  function InsertionSort<T(!new)>(xs: seq<T>, le: (T, T) -> bool): (r: seq<T>)
    requires TotalPreorder(le)
    ensures SortedBy(r, le)
    ensures multiset(r) == multiset(xs)
    ensures |r| == |xs|
  {
    if xs == [] then []
    else
      assert xs == [xs[0]] + xs[1..];
      Insert(xs[0], InsertionSort(xs[1..], le), le)
  }

  /** Under an antisymmetric order there is only one sorted arrangement of a multiset,
      so the result of a sort does not depend on the order its input was collected in. */
  lemma {:induction false} SortedUnique<T(!new)>(a: seq<T>, b: seq<T>, le: (T, T) -> bool)
    requires TotalPreorder(le) && Antisymmetric(le)
    requires SortedBy(a, le) && SortedBy(b, le)
    requires multiset(a) == multiset(b)
    ensures a == b
  {
    if a != [] {
      SortedHeadsEqual(a, b, le);
      SameTails(a, b);
      SortedTail(a, le);
      SortedTail(b, le);
      SortedUnique(a[1..], b[1..], le);
      SameHeadAndTail(a, b);
    }
  }

  lemma SameTails<T>(a: seq<T>, b: seq<T>)
    requires a != [] && b != [] && a[0] == b[0] && multiset(a) == multiset(b)
    ensures multiset(a[1..]) == multiset(b[1..])
  {
    TailMultiset(a);
    TailMultiset(b);
  }

  lemma SameHeadAndTail<T>(a: seq<T>, b: seq<T>)
    requires a != [] && b != [] && a[0] == b[0] && a[1..] == b[1..]
    ensures a == b
  {
    assert a == [a[0]] + a[1..];
    assert b == [b[0]] + b[1..];
  }

  /** Two sorted arrangements of one multiset start with the same element. */
  lemma SortedHeadsEqual<T(!new)>(a: seq<T>, b: seq<T>, le: (T, T) -> bool)
    requires TotalPreorder(le) && Antisymmetric(le)
    requires SortedBy(a, le) && SortedBy(b, le)
    requires multiset(a) == multiset(b) && a != []
    ensures b != [] && a[0] == b[0]
  {
    assert a[0] in multiset(b);
    assert b != [];
    assert b[0] in multiset(a);
    var i :| 0 <= i < |b| && b[i] == a[0];
    var j :| 0 <= j < |a| && a[j] == b[0];
    assert le(b[0], a[0]) by { if i > 0 { assert le(b[0], b[i]); } }
    assert le(a[0], b[0]) by { if j > 0 { assert le(a[0], a[j]); } }
  }

  lemma SortedTail<T>(a: seq<T>, le: (T, T) -> bool)
    requires SortedBy(a, le) && a != []
    ensures SortedBy(a[1..], le)
  {
    forall i, j | 0 <= i < j < |a| - 1
      ensures le(a[1..][i], a[1..][j])
    {
      assert a[1..][i] == a[i + 1] && a[1..][j] == a[j + 1];
    }
  }

  lemma TailMultiset<T>(a: seq<T>)
    requires a != []
    ensures multiset(a[1..]) == multiset(a) - multiset{a[0]}
  {
    assert a == [a[0]] + a[1..];
  }
}
