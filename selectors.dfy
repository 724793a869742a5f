/** Selectors: a conjunction of requirements (`internalSelector`) or the selector that
    matches nothing (`nothingSelector`), with the operations of the `Selector` interface
    and the constructors that build a selector from a label map. */
module Selectors {
  import opened Wrappers
  import opened GoStrings
  import opened Selection
  import opened LabelRequirements
  import Sorting
  import Enumeration

  /** `Internal([])` stands for both the nil and the empty `internalSelector`, which every
      operation treats alike. */
  datatype Selector = Internal(reqs: seq<Requirement>) | Nothing

  /** `Everything()` (and `NewSelector()`): the selector with no requirements. */
  function Everything(): (sel: Selector)
    ensures forall ls :: Matches(sel, ls)
    ensures SelectorString(sel) == ""
  {
    Internal([])
  }

  // ------------------------------------------------------------------ ByKey

  /** `ByKey.Less`, as the order it sorts into. */
  function ByKey(): (Requirement, Requirement) -> bool {
    (a: Requirement, b: Requirement) => StrLe(a.key, b.key)
  }

  lemma ByKeyIsTotal()
    ensures Sorting.TotalPreorder(ByKey())
  {
    StringOrderIsTotal();
    forall a: Requirement, b: Requirement ensures StrLe(a.key, b.key) || StrLe(b.key, a.key) {
      assert StringOrder()(a.key, b.key) || StringOrder()(b.key, a.key);
    }
    forall a: Requirement, b: Requirement, c: Requirement | StrLe(a.key, b.key) && StrLe(b.key, c.key)
      ensures StrLe(a.key, c.key)
    {
      assert StringOrder()(a.key, b.key) && StringOrder()(b.key, c.key);
    }
  }

  /** `sort.Sort(ByKey(reqs))`: sorted by key and a permutation of the input. The relative
      order of requirements that share a key is left open. */
  function SortByKey(reqs: seq<Requirement>): (r: seq<Requirement>)
    ensures Sorting.SortedBy(r, ByKey())
    ensures multiset(r) == multiset(reqs)
  {
    ByKeyIsTotal();
    Sorting.InsertionSort(reqs, ByKey())
  }

  // --------------------------------------------------------------- matching

  /** The loop of `internalSelector.Matches`: stops at the first requirement that fails. */
  function AllMatch(reqs: seq<Requirement>, ls: Labels): (b: bool)
    ensures b <==> forall i :: 0 <= i < |reqs| ==> LabelRequirements.Matches(reqs[i], ls)
  {
    if reqs == [] then true
    else if !LabelRequirements.Matches(reqs[0], ls) then false
    else
      var rest := AllMatch(reqs[1..], ls);
      assert forall i :: 1 <= i < |reqs| ==> reqs[i] == reqs[1..][i - 1];
      rest
  }

  function Matches(sel: Selector, ls: Labels): (b: bool)
    ensures sel.Nothing? ==> !b
    ensures sel.Internal? ==> (b <==> forall r :: r in sel.reqs ==> LabelRequirements.Matches(r, ls))
  {
    match sel
    case Nothing => false
    case Internal(reqs) => AllMatch(reqs, ls)
  }

  /** `Empty()`: true only for a selector without requirements; `Nothing` is not empty. */
  function Empty(sel: Selector): (b: bool)
    ensures b <==> sel == Everything()
  {
    match sel
    case Nothing => false
    case Internal(reqs) => |reqs| == 0
  }

  /** An empty selector matches every label map; `Nothing` matches none. */
  lemma EmptyMatchesEverything(sel: Selector, ls: Labels)
    ensures Empty(sel) ==> Matches(sel, ls)
    ensures sel == Nothing ==> !Matches(sel, ls) && !Empty(sel)
  {
  }

  /** `Requirements()`: the requirements and whether the selector can select anything. */
  function Requirements(sel: Selector): (r: (seq<Requirement>, bool))
    ensures r.1 <==> sel.Internal?
    ensures sel.Internal? ==> r.0 == sel.reqs
    ensures sel.Nothing? ==> r.0 == []
  {
    match sel
    case Nothing => ([], false)
    case Internal(reqs) => (reqs, true)
  }

  /** `Add(reqs...)`: a new selector holding the receiver's requirements and the new ones,
      sorted by key; `Nothing` stays `Nothing`. The receiver is a value and is not changed. */
  function Add(sel: Selector, more: seq<Requirement>): (r: Selector)
    ensures sel.Nothing? ==> r == Nothing
    ensures sel.Internal? ==>
      && r.Internal?
      && Sorting.SortedBy(r.reqs, ByKey())
      && multiset(r.reqs) == multiset(sel.reqs) + multiset(more)
  {
    match sel
    case Nothing => Nothing
    case Internal(reqs) => Internal(SortByKey(reqs + more))
  }

  /** Adding requirements to a selector narrows it by exactly those requirements, whatever
      order the sort puts them in. */
  lemma AddMatches(sel: Selector, more: seq<Requirement>, ls: Labels)
    requires sel.Internal?
    ensures Matches(Add(sel, more), ls)
      <==> Matches(sel, ls) && forall r :: r in more ==> LabelRequirements.Matches(r, ls)
  {
    var added := Add(sel, more).reqs;
    forall r ensures r in added <==> r in sel.reqs || r in more {
      assert r in added <==> r in multiset(added);
      assert r in sel.reqs + more <==> r in multiset(sel.reqs + more);
    }
  }

  /** The loop of `RequiresExactMatch`: the first requirement on `label` decides. */
  function ExactMatchIn(reqs: seq<Requirement>, key: string): (r: (string, bool))
    ensures r.1 <==> exists i :: 0 <= i < |reqs| && FirstOnKey(reqs, key, i) && IsExactMatch(reqs[i])
    ensures r.1 ==> exists i :: 0 <= i < |reqs| && FirstOnKey(reqs, key, i) && r.0 == reqs[i].strValues[0]
    ensures !r.1 ==> r.0 == ""
  {
    if reqs == [] then ("", false)
    else if reqs[0].key == key then
      assert FirstOnKey(reqs, key, 0);
      if reqs[0].operator in {Equals, DoubleEquals, In} && |reqs[0].strValues| == 1 then
        (reqs[0].strValues[0], true)
      else ("", false)
    else
      var rest := ExactMatchIn(reqs[1..], key);
      forall i | 1 <= i < |reqs| ensures FirstOnKey(reqs, key, i) <==> FirstOnKey(reqs[1..], key, i - 1) {
        assert forall j :: 1 <= j < i ==> reqs[j] == reqs[1..][j - 1];
      }
      if rest.1 then
        assert exists i :: 0 <= i < |reqs| && FirstOnKey(reqs, key, i) && rest.0 == reqs[i].strValues[0] by {
          var i :| 0 <= i < |reqs[1..]| && FirstOnKey(reqs[1..], key, i) && rest.0 == reqs[1..][i].strValues[0];
          assert FirstOnKey(reqs, key, i + 1);
        }
        rest
      else rest
  }

  /** `i` is the first position whose requirement is on `label`. */
  predicate FirstOnKey(reqs: seq<Requirement>, key: string, i: int)
    requires 0 <= i < |reqs|
  {
    reqs[i].key == key && forall j :: 0 <= j < i ==> reqs[j].key != key
  }

  /** A requirement that pins its key to one value: `=`, `==` or `in` with one value. */
  predicate IsExactMatch(r: Requirement) {
    r.operator in {Equals, DoubleEquals, In} && |r.strValues| == 1
  }

  function RequiresExactMatch(sel: Selector, key: string): (r: (string, bool))
    ensures sel.Nothing? ==> r == ("", false)
    ensures sel.Internal? ==> r == ExactMatchIn(sel.reqs, key)
  {
    match sel
    case Nothing => ("", false)
    case Internal(reqs) => ExactMatchIn(reqs, key)
  }

  /** What `RequiresExactMatch` reports is necessary for a match: every label map the
      selector matches carries exactly that value under the label. */
  lemma ExactMatchIsNecessary(sel: Selector, key: string, ls: Labels)
    requires RequiresExactMatch(sel, key).1 && Matches(sel, ls)
    ensures key in ls && ls[key] == RequiresExactMatch(sel, key).0
  {
    var i :| 0 <= i < |sel.reqs| && FirstOnKey(sel.reqs, key, i) && IsExactMatch(sel.reqs[i]);
    var j :| 0 <= j < |sel.reqs| && FirstOnKey(sel.reqs, key, j)
      && RequiresExactMatch(sel, key).0 == sel.reqs[j].strValues[0];
    assert i == j;
    assert sel.reqs[i] in sel.reqs;
    assert sel.reqs[i].strValues == [sel.reqs[i].strValues[0]];
  }

  // ---------------------------------------------------------------- String

  function RequirementStrings(reqs: seq<Requirement>): (r: seq<string>)
    ensures |r| == |reqs|
    ensures forall i :: 0 <= i < |reqs| ==> r[i] == RequirementString(reqs[i])
  {
    if reqs == [] then [] else [RequirementString(reqs[0])] + RequirementStrings(reqs[1..])
  }

  /** `String()`: the requirements' strings joined by commas; `""` for `Nothing`. */
  function SelectorString(sel: Selector): (s: string)
    ensures sel.Nothing? || sel.reqs == [] ==> s == ""
    ensures sel.Internal? && |sel.reqs| == 1 ==> s == RequirementString(sel.reqs[0])
    ensures sel.Internal? && |sel.reqs| > 1 ==> RequirementString(sel.reqs[0]) + "," <= s
  {
    match sel
    case Nothing => ""
    case Internal(reqs) => Join(RequirementStrings(reqs), ",")
  }

  /** Each further requirement adds a comma and its own string to the rendering. */
  lemma {:induction false} SelectorStringAppend(reqs: seq<Requirement>, r: Requirement)
    ensures SelectorString(Internal(reqs + [r]))
      == SelectorString(Internal(reqs)) + (if reqs == [] then "" else ",") + RequirementString(r)
  {
    assert RequirementStrings(reqs + [r]) == RequirementStrings(reqs) + [RequirementString(r)];
    JoinAppend(RequirementStrings(reqs), RequirementString(r), ",");
  }

  lemma {:induction false} JoinAppend(xs: seq<string>, x: string, sep: string)
    ensures Join(xs + [x], sep) == Join(xs, sep) + (if xs == [] then "" else sep) + x
    decreases |xs|
  {
    if |xs| > 1 {
      assert (xs + [x])[1..] == xs[1..] + [x];
      JoinAppend(xs[1..], x, sep);
    } else if |xs| == 1 {
      assert (xs + [x])[1..] == [x];
    }
  }

  // ------------------------------------------------------ from a label map

  /** The requirement `SelectorFromValidatedSet` builds for one entry of the map. */
  function EqualsRequirement(key: string, value: string): Requirement {
    Requirement(key, Equals, [value])
  }

  /** A selector as built from `ls`: one `label=value` requirement per entry, sorted by key. */
  ghost predicate BuiltFromSet(sel: Selector, ls: map<string, string>) {
    && sel.Internal?
    && Sorting.SortedBy(sel.reqs, ByKey())
    && multiset(sel.reqs) == Enumeration.Image(ls, EqualsRequirement)
  }

  /** A selector built from `ls` matches exactly the label maps that contain every entry
      of `ls`. */
  lemma BuiltFromSetMatches(sel: Selector, ls: map<string, string>, labels: Labels)
    requires BuiltFromSet(sel, ls)
    ensures Matches(sel, labels) <==> forall k :: k in ls ==> k in labels && labels[k] == ls[k]
  {
    forall r ensures r in sel.reqs <==> exists k :: k in ls && EqualsRequirement(k, ls[k]) == r {
      assert r in sel.reqs <==> r in multiset(sel.reqs);
      Enumeration.ImageMembers(ls, EqualsRequirement, r);
    }
    if forall k :: k in ls ==> k in labels && labels[k] == ls[k] {
      forall r | r in sel.reqs ensures LabelRequirements.Matches(r, labels) {
        var k :| k in ls && EqualsRequirement(k, ls[k]) == r;
      }
    }
    if Matches(sel, labels) {
      forall k | k in ls ensures k in labels && labels[k] == ls[k] {
        assert EqualsRequirement(k, ls[k]) in sel.reqs;
      }
    }
  }

  /** `SelectorFromValidatedSet`: ranges over the map (in no particular order), collects
      one `Equals` requirement per entry without validating it, then sorts by key. */
  method SelectorFromValidatedSet(ls: map<string, string>) returns (sel: Selector)
    ensures BuiltFromSet(sel, ls)
  {
    if |ls| == 0 {
      return Internal([]);
    }
    var requirements: seq<Requirement> := [];
    var rest := ls;
    while rest != map[]
      invariant multiset(requirements) + Enumeration.Image(rest, EqualsRequirement)
        == Enumeration.Image(ls, EqualsRequirement)
      decreases |rest|
    {
      var key :| key in rest;
      Enumeration.ImageRemove(rest, EqualsRequirement, key);
      Enumeration.RemoveOne(rest, key);
      requirements := requirements + [EqualsRequirement(key, rest[key])];
      rest := rest - {key};
    }
    sel := Internal(SortByKey(requirements));
  }

  /** `ValidatedSelectorFromSet`: as `SelectorFromValidatedSet`, but every entry goes through
      `NewRequirement`, and the first entry it rejects makes the whole call fail with that
      entry's error. */
  method ValidatedSelectorFromSet(v: Validators, ls: map<string, string>)
    returns (r: Result<Selector, RequirementError>)
    ensures r.Ok? <==> forall k :: k in ls ==> NewRequirement(v, k, Equals, [ls[k]]).Ok?
    ensures r.Ok? ==> BuiltFromSet(r.value, ls)
    ensures r.Err? ==> exists k :: k in ls && NewRequirement(v, k, Equals, [ls[k]]) == Err(r.error)
  {
    if |ls| == 0 {
      return Ok(Internal([]));
    }
    var requirements: seq<Requirement> := [];
    var rest := ls;
    while rest != map[]
      invariant forall k :: k in rest ==> k in ls && rest[k] == ls[k]
      invariant forall k :: k in ls && k !in rest ==> NewRequirement(v, k, Equals, [ls[k]]).Ok?
      invariant multiset(requirements) + Enumeration.Image(rest, EqualsRequirement)
        == Enumeration.Image(ls, EqualsRequirement)
      decreases |rest|
    {
      var key :| key in rest;
      var made := NewRequirement(v, key, Equals, [rest[key]]);
      if made.Err? {
        return Err(made.error);
      }
      Enumeration.ImageRemove(rest, EqualsRequirement, key);
      Enumeration.RemoveOne(rest, key);
      requirements := requirements + [made.value];
      rest := rest - {key};
    }
    r := Ok(Internal(SortByKey(requirements)));
  }
}
