/** A single label requirement: a key, an operator and a list of values, built only by
    the validating constructor and evaluated against a label map. */
module LabelRequirements {
  import opened Wrappers
  import opened GoStrings
  import opened Selection
  import Sorting

  /** A label map. The `Labels` interface of the source only asks for `Has` and `Get`. */
  type Labels = map<string, string>

  function Has(ls: Labels, key: string): (b: bool)
    ensures b <==> key in ls
  {
    key in ls
  }

  /** The value under `key`, or the empty string when the key is absent. */
  function Get(ls: Labels, key: string): (v: string)
    ensures key in ls ==> v == ls[key]
    ensures key !in ls ==> v == ""
  {
    if key in ls then ls[key] else ""
  }

  /** The two syntax checks of the validation package (qualified names, label values).
      Their rules live outside this model, so they are given as parameters. */
  datatype Validators = Validators(qualifiedName: string -> bool, labelValue: string -> bool)

  datatype Requirement = Requirement(key: string, operator: Operator, strValues: seq<string>)

  /** How many values each operator takes, and that the one value of `>` and `<` must be
      a 64-bit decimal integer. No other operator is admitted. */
  predicate ArityRule(op: Operator, vals: seq<string>) {
    match op
    case In | NotIn => |vals| >= 1
    case Equals | DoubleEquals | NotEquals => |vals| == 1
    case Exists | DoesNotExist => |vals| == 0
    case GreaterThan | LessThan => |vals| == 1 && ParseInt64(vals[0]).Some?
    case Unrecognized(_) => false
  }

  function OperatorName(op: Operator): string {
    match op
    case DoesNotExist => "!"
    case Equals => "="
    case DoubleEquals => "=="
    case In => "in"
    case NotEquals => "!="
    case NotIn => "notin"
    case Exists => "exists"
    case GreaterThan => "gt"
    case LessThan => "lt"
    case Unrecognized(name) => name
  }

  /** The index of the first value the label-value check rejects, if any. */
  function FirstInvalidValue(v: Validators, vals: seq<string>): (r: Option<nat>)
    ensures r.Some? ==> r.value < |vals| && !v.labelValue(vals[r.value])
    ensures r.None? ==> forall i :: 0 <= i < |vals| ==> v.labelValue(vals[i])
  {
    if vals == [] then None
    else if !v.labelValue(vals[0]) then Some(0)
    else match FirstInvalidValue(v, vals[1..])
      case None => None
      case Some(i) => Some(i + 1)
  }

  /** Why `NewRequirement` refuses its arguments; `Message` gives the source's text. */
  datatype RequirementError =
    | InvalidKey(key: string)
    | EmptyValueSet
    | ExactMatchNeedsOneValue
    | ExistenceTakesNoValues
    | ComparisonNeedsOneValue
    | ComparisonNeedsInteger
    | UnrecognizedOperator(op: Operator)
    | InvalidValue(key: string, value: string)

  function Message(e: RequirementError): string {
    match e
    case InvalidKey(k) => "invalid label key \"" + k + "\""
    case EmptyValueSet => "for 'in', 'notin' operators, values set can't be empty"
    case ExactMatchNeedsOneValue => "exact-match compatibility requires one single value"
    case ExistenceTakesNoValues => "values set must be empty for exists and does not exist"
    case ComparisonNeedsOneValue => "for 'Gt', 'Lt' operators, exactly one value is required"
    case ComparisonNeedsInteger => "for 'Gt', 'Lt' operators, the value must be an integer"
    case UnrecognizedOperator(op) => "operator '" + OperatorName(op) + "' is not recognized"
    case InvalidValue(k, v) => "invalid label value: \"" + v + "\": at key: \"" + k + "\""
  }

  /** The operator switch of `NewRequirement`: passes exactly when the arity rule holds. */
  function CheckArity(op: Operator, vals: seq<string>): (r: Outcome<RequirementError>)
    ensures r.Pass? <==> ArityRule(op, vals)
  {
    match op
    case In | NotIn => if |vals| == 0 then Fail(EmptyValueSet) else Pass
    case Equals | DoubleEquals | NotEquals => if |vals| != 1 then Fail(ExactMatchNeedsOneValue) else Pass
    case Exists | DoesNotExist => if |vals| != 0 then Fail(ExistenceTakesNoValues) else Pass
    case GreaterThan | LessThan =>
      if |vals| != 1 then Fail(ComparisonNeedsOneValue)
      else if ParseInt64(vals[0]).None? then Fail(ComparisonNeedsInteger)
      else Pass
    case Unrecognized(_) => Fail(UnrecognizedOperator(op))
  }

  /** `NewRequirement`: the key is checked first, then the operator's arity, then every
      value. A requirement that is returned holds exactly the given key, operator and values. */
  function NewRequirement(v: Validators, key: string, op: Operator, vals: seq<string>)
    : (r: Result<Requirement, RequirementError>)
    ensures r.Ok? <==>
      && v.qualifiedName(key)
      && ArityRule(op, vals)
      && (forall i :: 0 <= i < |vals| ==> v.labelValue(vals[i]))
    ensures r.Ok? ==> r.value == Requirement(key, op, vals)
    ensures !v.qualifiedName(key) ==> r == Err(InvalidKey(key))
    ensures v.qualifiedName(key) && !ArityRule(op, vals) ==> r.Err? && !r.error.InvalidValue?
  {
    if !v.qualifiedName(key) then Err(InvalidKey(key))
    else
      var arity := CheckArity(op, vals);
      if arity.Fail? then Err(arity.error)
      else match FirstInvalidValue(v, vals)
        case Some(i) => Err(InvalidValue(key, vals[i]))
        case None => Ok(Requirement(key, op, vals))
  }

  /** `hasValue`: a linear scan of the stored values. */
  function HasValue(r: Requirement, value: string): (b: bool)
    ensures b <==> value in r.strValues
    decreases |r.strValues|
  {
    if r.strValues == [] then false
    else r.strValues[0] == value || HasValue(r.(strValues := r.strValues[1..]), value)
  }

  /** The integer comparison behind `>` and `<`; any value that is not a 64-bit integer,
      or a value count other than one, makes it false rather than an error. */
  function CompareMatches(r: Requirement, ls: Labels): bool
    requires r.operator == GreaterThan || r.operator == LessThan
  {
    if !Has(ls, r.key) then false
    else match ParseInt64(Get(ls, r.key))
      case None => false
      case Some(lsValue) =>
        if |r.strValues| != 1 then false
        else match ParseInt64(r.strValues[0])
          case None => false
          case Some(rValue) =>
            (r.operator == GreaterThan && lsValue > rValue) || (r.operator == LessThan && lsValue < rValue)
  }

  /** `Requirement.Matches`, stated as the match table of the selector language. */
  function Matches(r: Requirement, ls: Labels): (m: bool)
    ensures r.operator in {In, Equals, DoubleEquals} ==>
      (m <==> r.key in ls && ls[r.key] in r.strValues)
    ensures r.operator in {NotIn, NotEquals} ==>
      (m <==> r.key !in ls || ls[r.key] !in r.strValues)
    ensures r.operator == Exists ==> (m <==> r.key in ls)
    ensures r.operator == DoesNotExist ==> (m <==> r.key !in ls)
    ensures r.operator in {GreaterThan, LessThan} ==>
      (m <==> && r.key in ls && |r.strValues| == 1
              && ParseInt64(ls[r.key]).Some? && ParseInt64(r.strValues[0]).Some?
              && var lv, rv := ParseInt64(ls[r.key]).value, ParseInt64(r.strValues[0]).value;
                 if r.operator == GreaterThan then lv > rv else lv < rv)
    ensures r.operator.Unrecognized? ==> !m
  {
    match r.operator
    case In | Equals | DoubleEquals =>
      if !Has(ls, r.key) then false else HasValue(r, Get(ls, r.key))
    case NotIn | NotEquals =>
      if !Has(ls, r.key) then true else !HasValue(r, Get(ls, r.key))
    case Exists => Has(ls, r.key)
    case DoesNotExist => !Has(ls, r.key)
    case GreaterThan | LessThan => CompareMatches(r, ls)
    case Unrecognized(_) => false
  }

  /** `Values()`: the stored values as a set. */
  function Values(r: Requirement): (vs: set<string>)
    ensures forall x :: x in vs <==> HasValue(r, x)
  {
    set x | x in r.strValues
  }

  /** `safeSort`: the values in ascending order; input that is already sorted is returned
      as it is, and the input itself is never reordered. */
  function SafeSort(xs: seq<string>): (r: seq<string>)
    ensures Sorting.SortedBy(r, StringOrder())
    ensures multiset(r) == multiset(xs)
    ensures StringsAreSorted(xs) ==> r == xs
  {
    StringsAreSortedMeansSorted(xs);
    if StringsAreSorted(xs) then xs else SortStrings(xs)
  }

  /** The values as `Requirement.String` writes them: a single value as it is, several
      sorted and joined with commas. */
  function ValuesText(vs: seq<string>): (t: string)
  {
    if |vs| == 1 then vs[0] else Join(SafeSort(vs), ",")
  }

  /** Several values without a comma can be read back from their text: splitting it at
      the commas gives them in ascending order. */
  lemma ValuesTextSplits(vs: seq<string>)
    requires |vs| > 1 && forall i :: 0 <= i < |vs| ==> ',' !in vs[i]
    ensures Split(ValuesText(vs), ',') == SafeSort(vs)
    ensures multiset(Split(ValuesText(vs), ',')) == multiset(vs)
  {
    var sorted := SafeSort(vs);
    forall i | 0 <= i < |sorted| ensures ',' !in sorted[i] {
      assert sorted[i] in multiset(vs);
    }
    SplitJoin(sorted, ',');
  }

  /** `Requirement.String`: `!key` for does-not-exist, the bare key for exists, otherwise
      the key, the operator's spelling and the values, parenthesised for `in` and `notin`.
      An unrecognised operator writes no spelling. */
  function RequirementString(r: Requirement): (s: string)
    ensures r.operator == DoesNotExist ==> s == "!" + r.key
    ensures r.operator == Exists ==> s == r.key
    ensures r.operator == Equals ==> s == r.key + "=" + ValuesText(r.strValues)
    ensures r.operator == DoubleEquals ==> s == r.key + "==" + ValuesText(r.strValues)
    ensures r.operator == NotEquals ==> s == r.key + "!=" + ValuesText(r.strValues)
    ensures r.operator == GreaterThan ==> s == r.key + ">" + ValuesText(r.strValues)
    ensures r.operator == LessThan ==> s == r.key + "<" + ValuesText(r.strValues)
    ensures r.operator == In ==> s == r.key + " in (" + ValuesText(r.strValues) + ")"
    ensures r.operator == NotIn ==> s == r.key + " notin (" + ValuesText(r.strValues) + ")"
    ensures r.operator.Unrecognized? ==> s == r.key + ValuesText(r.strValues)
    ensures r.operator != DoesNotExist ==> |r.key| <= |s| && s[..|r.key|] == r.key
    ensures r.operator in {In, NotIn} ==> |s| > 0 && s[|s| - 1] == ')'
  {
    var values := ValuesText(r.strValues);
    match r.operator
    case DoesNotExist => "!" + r.key
    case Exists => r.key
    case In => KeyFirst(r.key, " in (", values, ")")
    case NotIn => KeyFirst(r.key, " notin (", values, ")")
    case Equals => KeyFirst(r.key, "=", values, "")
    case DoubleEquals => KeyFirst(r.key, "==", values, "")
    case NotEquals => KeyFirst(r.key, "!=", values, "")
    case GreaterThan => KeyFirst(r.key, ">", values, "")
    case LessThan => KeyFirst(r.key, "<", values, "")
    case Unrecognized(_) => KeyFirst(r.key, "", values, "")
  }

  /** The key, the operator's spelling, the values and the closing text: it starts with
      the key and ends as the closing text does. */
  function KeyFirst(key: string, spelling: string, values: string, close: string): (s: string)
    ensures s == key + spelling + values + close
    ensures |key| <= |s| && s[..|key|] == key
    ensures |close| > 0 ==> s[|s| - 1] == close[|close| - 1]
  {
    assert (key + spelling + values + close)[..|key|] == key;
    key + spelling + values + close
  }

  /** `safeSort` gives the same list for any two arrangements of the same values. */
  lemma SafeSortCanonical(a: seq<string>, b: seq<string>)
    requires multiset(a) == multiset(b)
    ensures SafeSort(a) == SafeSort(b)
  {
    StringOrderIsTotal();
    Sorting.SortedUnique(SafeSort(a), SafeSort(b), StringOrder());
  }

  /** The rendering does not depend on the order the values were given in. */
  lemma RequirementStringCanonical(r1: Requirement, r2: Requirement)
    requires r1.key == r2.key && r1.operator == r2.operator
    requires multiset(r1.strValues) == multiset(r2.strValues)
    ensures RequirementString(r1) == RequirementString(r2)
  {
    assert |r1.strValues| == |multiset(r1.strValues)| == |r2.strValues|;
    if |r1.strValues| == 1 {
      assert r1.strValues == [r1.strValues[0]];
      assert r2.strValues[0] in multiset(r1.strValues);
    } else {
      SafeSortCanonical(r1.strValues, r2.strValues);
    }
  }

  /** The slice copy inside `DeepCopyInto`, on its own: a nil slice stays nil, any other
      slice is replaced by a freshly allocated one with the same contents. `Requirement`
      holds its values as a `seq`, a value that no copy can alias, so this method models
      only the copying of the slice and is not connected to the datatype. */
  method CopyStrValues(values: array?<string>) returns (copy: array?<string>)
    ensures values == null ==> copy == null
    ensures values != null ==> copy != null && fresh(copy) && copy[..] == values[..]
  {
    if values == null {
      return null;
    }
    copy := new string[values.Length];
    var i := 0;
    while i < values.Length
      invariant 0 <= i <= values.Length
      invariant copy[..i] == values[..i]
    {
      copy[i] := values[i];
      i := i + 1;
    }
    assert copy[..] == copy[..i];
  }
}
