/** `sets.String` as the parser uses it: a duplicate-free set of strings whose `List()` is
    in ascending order. It is kept as that ascending list, so `List()` is the list itself. */
module StringSets {
  import opened GoStrings

  /** Strictly ascending, hence duplicate-free. */
  predicate IsStringSet(xs: seq<string>) {
    forall i, j :: 0 <= i < j < |xs| ==> StrLess(xs[i], xs[j])
  }

  /** `s.Insert(x)`: adds `x` unless it is already a member. */
  function Insert(xs: seq<string>, x: string): (r: seq<string>)
    requires IsStringSet(xs)
    ensures IsStringSet(r)
    ensures forall y :: y in r <==> y in xs || y == x
    ensures x in xs ==> r == xs
  {
    if xs == [] then [x]
    else if x == xs[0] then xs
    else if StrLess(x, xs[0]) then
      forall j | 0 < j < |xs| ensures StrLess(x, xs[j]) { StrLessTransitive(x, xs[0], xs[j]); }
      StrLessIrreflexive(x);
      [x] + xs
    else
      var tail := Insert(xs[1..], x);
      assert xs == [xs[0]] + xs[1..];
      StrLessTrichotomy(x, xs[0]);
      forall j | 0 <= j < |tail| ensures StrLess(xs[0], tail[j]) {
        assert tail[j] in tail;
      }
      [xs[0]] + tail
  }
}
