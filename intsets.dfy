/** The map-backed integer sets `sets.Int32`, `sets.Int64` and `sets.Byte`. The three files
    are one template over different element types, so they are one class here whose `Kind`
    fixes the range of its elements. */
module IntSets {
  import Sorting

  /** The element type of a set. */
  datatype Kind = Int32 | Int64 | Byte

  /** The values of the element type. */
  predicate InRange(kind: Kind, x: int) {
    match kind
    case Int32 => -0x8000_0000 <= x < 0x8000_0000
    case Int64 => -0x8000_0000_0000_0000 <= x < 0x8000_0000_0000_0000
    case Byte => 0 <= x < 0x100
  }

  predicate AllInRange(kind: Kind, items: seq<int>) {
    forall i :: 0 <= i < |items| ==> InRange(kind, items[i])
  }

  /** The order `sort.Sort` uses on the list of members. */
  function IntOrder(): (int, int) -> bool {
    (a: int, b: int) => a <= b
  }

  lemma IntOrderIsTotal()
    ensures Sorting.TotalPreorder(IntOrder())
  {
  }

  /** A non-empty set has a member: what lets a `range` loop take its next key. */
  lemma HasMember(s: set<int>)
    requires s != {}
    ensures exists x :: x in s
  {
    if forall x :: x !in s {
      assert false;
    }
  }

  /** The members named by a one-item argument list. */
  lemma OneItem(k: int)
    ensures (set i | 0 <= i < |[k]| :: [k][i]) == {k}
  {
    assert [k][0] == k;
  }

  predicate StrictlyAscending(xs: seq<int>) {
    forall i :: 0 < i < |xs| ==> xs[i - 1] < xs[i]
  }

  /** A list sorted by `<=` that holds every member of a set once is strictly ascending. */
  lemma SortedMembersAscend(xs: seq<int>, s: set<int>)
    requires Sorting.SortedBy(xs, IntOrder()) && multiset(xs) == multiset(s)
    ensures StrictlyAscending(xs)
  {
    forall i | 0 < i < |xs|
      ensures xs[i - 1] < xs[i]
    {
      assert xs == xs[..i - 1] + [xs[i - 1], xs[i]] + xs[i + 1..];
      assert multiset(xs)[xs[i]] >= multiset{xs[i - 1], xs[i]}[xs[i]];
      assert multiset(s)[xs[i]] <= 1;
      assert IntOrder()(xs[i - 1], xs[i]);
    }
  }

  /** A subset as large as its superset is the whole superset: the reason `Equal` may
      test the length and `IsSuperset` only. */
  lemma {:induction false} SubsetOfSameSize(a: set<int>, b: set<int>)
    requires a <= b && |a| == |b|
    ensures a == b
    decreases |b|
  {
    if b != {} {
      HasMember(b);
      var x :| x in b;
      if x in a {
        SubsetOfSameSize(a - {x}, b - {x});
        assert a == (a - {x}) + {x} && b == (b - {x}) + {x};
      } else {
        assert a <= b - {x};
        SmallerSubset(a, b - {x});
        assert false;
      }
    }
  }

  lemma {:induction false} SmallerSubset(a: set<int>, b: set<int>)
    requires a <= b
    ensures |a| <= |b|
    decreases |b|
  {
    if a != {} {
      HasMember(a);
      var x :| x in a;
      SmallerSubset(a - {x}, b - {x});
    }
  }

  /** The loop of `Intersection`: walks `walk` and keeps the keys `other` has. Either
      order gives the same set, as `walk * other == other * walk`. */
  method Walk(kind: Kind, walk: set<int>, other: set<int>) returns (result: IntSet)
    requires forall x :: x in walk ==> InRange(kind, x)
    ensures fresh(result) && result.kind == kind && result.Valid()
    ensures result.elems == walk * other
  {
    result := new IntSet(kind, []);
    var remaining := walk;
    while remaining != {}
      invariant remaining <= walk && result.kind == kind && result.Valid()
      invariant result.elems == (walk - remaining) * other
      decreases |remaining|
    {
      HasMember(remaining);
      var key :| key in remaining;
      if key in other {
        OneItem(key);
        var _ := result.Insert([key]);
      }
      remaining := remaining - {key};
    }
  }

  /** One `range` loop of `Union`: inserts every key of `keys` into `target`. */
  method InsertEach(target: IntSet, keys: set<int>)
    requires target.Valid() && forall x :: x in keys ==> InRange(target.kind, x)
    modifies target
    ensures target.Valid()
    ensures target.elems == old(target.elems) + keys
  {
    ghost var start := target.elems;
    var remaining := keys;
    while remaining != {}
      invariant remaining <= keys && target.Valid()
      invariant target.elems == start + (keys - remaining)
      decreases |remaining|
    {
      HasMember(remaining);
      var key :| key in remaining;
      OneItem(key);
      var _ := target.Insert([key]);
      remaining := remaining - {key};
    }
  }

  /** A set of integers of one kind, mutated in place like the Go map it models. */
  class IntSet {
    const kind: Kind
    var elems: set<int>

    ghost predicate Valid()
      reads this
    {
      forall x :: x in elems ==> InRange(kind, x)
    }

    /** `NewInt32`, `NewInt64` and `NewByte`: a set holding the given items. */
    constructor (kind: Kind, items: seq<int>)
      requires AllInRange(kind, items)
      ensures this.kind == kind && Valid()
      ensures elems == set i | 0 <= i < |items| :: items[i]
    {
      this.kind := kind;
      elems := {};
      new;
      var r := Insert(items);
    }

    /** Adds every item and returns the receiver. */
    method Insert(items: seq<int>) returns (r: IntSet)
      requires Valid() && AllInRange(kind, items)
      modifies this
      ensures Valid() && r == this
      ensures elems == old(elems) + set i | 0 <= i < |items| :: items[i]
    {
      var j := 0;
      while j < |items|
        invariant j <= |items|
        invariant Valid()
        invariant elems == old(elems) + set i | 0 <= i < j :: items[i]
      {
        elems := elems + {items[j]};
        j := j + 1;
      }
      r := this;
    }

    /** Removes every item and returns the receiver. */
    method Delete(items: seq<int>) returns (r: IntSet)
      requires Valid()
      modifies this
      ensures Valid() && r == this
      ensures elems == old(elems) - set i | 0 <= i < |items| :: items[i]
    {
      var j := 0;
      while j < |items|
        invariant j <= |items|
        invariant Valid()
        invariant elems == old(elems) - set i | 0 <= i < j :: items[i]
      {
        elems := elems - {items[j]};
        j := j + 1;
      }
      r := this;
    }

    predicate Has(item: int)
      reads this
      ensures Has(item) <==> item in elems
    {
      item in elems
    }

    function Len(): (n: nat)
      reads this
      ensures n == |elems|
      ensures n == 0 <==> elems == {}
    {
      |elems|
    }

    /** True iff every item is a member; true for no items. */
    method HasAll(items: seq<int>) returns (b: bool)
      ensures b <==> forall i :: 0 <= i < |items| ==> items[i] in elems
      ensures items == [] ==> b
    {
      var j := 0;
      while j < |items|
        invariant j <= |items|
        invariant forall i :: 0 <= i < j ==> items[i] in elems
      {
        if !Has(items[j]) {
          return false;
        }
        j := j + 1;
      }
      return true;
    }

    /** True iff some item is a member; false for no items. */
    method HasAny(items: seq<int>) returns (b: bool)
      ensures b <==> exists i :: 0 <= i < |items| && items[i] in elems
      ensures items == [] ==> !b
    {
      var j := 0;
      while j < |items|
        invariant j <= |items|
        invariant forall i :: 0 <= i < j ==> items[i] !in elems
      {
        if Has(items[j]) {
          return true;
        }
        j := j + 1;
      }
      return false;
    }

    /** The members of the receiver that are not members of `s2`, in a new set. */
    method Difference(s2: IntSet) returns (result: IntSet)
      requires Valid() && s2.kind == kind
      ensures fresh(result) && result.kind == kind && result.Valid()
      ensures result.elems == elems - s2.elems
    {
      result := new IntSet(kind, []);
      ghost var mine, theirs := elems, s2.elems;
      var remaining := elems;
      while remaining != {}
        invariant remaining <= mine && result.kind == kind && result.Valid()
        invariant result.elems == (mine - remaining) - theirs
        decreases |remaining|
      {
        HasMember(remaining);
        var key :| key in remaining;
        if !s2.Has(key) {
          OneItem(key);
          var _ := result.Insert([key]);
        }
        remaining := remaining - {key};
      }
    }

    /** The members of either set, in a new set. */
    method Union(s2: IntSet) returns (result: IntSet)
      requires Valid() && s2.Valid() && s2.kind == kind
      ensures fresh(result) && result.kind == kind && result.Valid()
      ensures result.elems == elems + s2.elems
    {
      result := new IntSet(kind, []);
      InsertEach(result, elems);
      InsertEach(result, s2.elems);
    }

    /** The members of both sets, in a new set; the smaller set is the one walked. */
    method Intersection(s2: IntSet) returns (result: IntSet)
      requires Valid() && s2.Valid() && s2.kind == kind
      ensures fresh(result) && result.kind == kind && result.Valid()
      ensures result.elems == elems * s2.elems
    {
      if Len() < s2.Len() {
        result := Walk(kind, elems, s2.elems);
      } else {
        result := Walk(kind, s2.elems, elems);
      }
    }

    /** True iff every member of `s2` is a member of the receiver. */
    method IsSuperset(s2: IntSet) returns (b: bool)
      ensures b <==> s2.elems <= elems
    {
      var remaining := s2.elems;
      while remaining != {}
        invariant remaining <= s2.elems
        invariant s2.elems - remaining <= elems
        decreases |remaining|
      {
        HasMember(remaining);
        var item :| item in remaining;
        if !Has(item) {
          return false;
        }
        remaining := remaining - {item};
      }
      return true;
    }

    /** True iff both sets have the same members, decided by length and `IsSuperset`. */
    method Equal(s2: IntSet) returns (b: bool)
      ensures b <==> elems == s2.elems
    {
      if |elems| != |s2.elems| {
        return false;
      }
      b := IsSuperset(s2);
      if b {
        SubsetOfSameSize(s2.elems, elems);
      }
    }

    /** The members in ascending order, each once. */
    method List() returns (res: seq<int>)
      ensures StrictlyAscending(res) && multiset(res) == multiset(elems)
      ensures |res| == Len()
    {
      var collected := [];
      var remaining := elems;
      while remaining != {}
        invariant remaining <= elems
        invariant multiset(collected) == multiset(elems - remaining)
        decreases |remaining|
      {
        HasMember(remaining);
        var key :| key in remaining;
        assert elems - (remaining - {key}) == (elems - remaining) + {key};
        collected := collected + [key];
        remaining := remaining - {key};
      }
      assert elems - remaining == elems;
      IntOrderIsTotal();
      res := Sorting.InsertionSort(collected, IntOrder());
      SortedMembersAscend(res, elems);
      assert |multiset(elems)| == |elems|;
    }

    /** The members in no particular order. */
    method UnsortedList() returns (res: seq<int>)
      ensures multiset(res) == multiset(elems)
    {
      res := [];
      var remaining := elems;
      while remaining != {}
        invariant remaining <= elems
        invariant multiset(res) == multiset(elems - remaining)
        decreases |remaining|
      {
        HasMember(remaining);
        var key :| key in remaining;
        assert elems - (remaining - {key}) == (elems - remaining) + {key};
        res := res + [key];
        remaining := remaining - {key};
      }
      assert elems - remaining == elems;
    }

    /** Removes and returns some member; an empty set gives `(0, false)` and is left as is. */
    method PopAny() returns (x: int, ok: bool)
      requires Valid()
      modifies this
      ensures Valid()
      ensures old(elems) == {} ==> !ok && x == 0 && elems == old(elems)
      ensures old(elems) != {} ==> ok && x in old(elems) && elems == old(elems) - {x}
    {
      if elems != {} {
        HasMember(elems);
        var key :| key in elems;
        OneItem(key);
        var _ := Delete([key]);
        return key, true;
      }
      return 0, false;
    }
  }
}
