/** The recursive-descent parser of the label-selector language. `scan` first buffers every
    token; the parser then looks ahead and consumes by index. The functions ending in `At`
    say what each parsing step yields from a position in the buffer, together with the
    position after it; the `Parser` class performs the steps in place. */
module SelectorParser {
  import opened Wrappers
  import opened Selection
  import opened SelectorLexer
  import opened LabelRequirements
  import opened Selectors
  import StringSets
  import Sorting

  /** Whether `in` and `notin` are read as operators (`KeyAndOperator`) or as plain
      values (`Values`). */
  datatype ParserContext = KeyAndOperator | Values

  /** The token `lookahead` and `consume` report in a context. */
  function TokenIn(tok: Token, context: ParserContext): Token {
    if context == Values && (tok == InToken || tok == NotInToken) then IdentifierToken else tok
  }

  /** What the parser expected where it found something else. */
  datatype Expected =
    | Identifier
    | CommaOrEnd
    | IdentifierAfterComma
    | RequirementStart
    | OperatorSymbol
    | OpenParen
    | ValueSetStart
    | CommaOrCloseParen
    | CommaOrIdentifier

  datatype ParseError =
    | Unexpected(found: string, expected: Expected)
    | Rejected(cause: RequirementError)
    | InRequirement(inner: ParseError)

  function ExpectedText(e: Expected): string {
    match e
    case Identifier => "identifier"
    case CommaOrEnd => "',' or 'end of string'"
    case IdentifierAfterComma => "identifier after ','"
    case RequirementStart => "!, identifier, or 'end of string'"
    case OperatorSymbol => "'=', '!=', '==', 'in', notin'"
    case OpenParen => "'('"
    case ValueSetStart => "',', ')' or identifier"
    case CommaOrCloseParen => "',' or ')'"
    case CommaOrIdentifier => "',', or identifier"
  }

  function ErrorMessage(e: ParseError): string {
    match e
    case Unexpected(found, OpenParen) => "found '" + found + "' expected: '('"
    case Unexpected(found, expected) => "found '" + found + "', expected: " + ExpectedText(expected)
    case Rejected(cause) => Message(cause)
    case InRequirement(inner) => "unable to parse requirement: " + ErrorMessage(inner)
  }

  /** A requirement `NewRequirement` would build from its own key, operator and values. */
  predicate Accepted(v: Validators, r: Requirement) {
    NewRequirement(v, r.key, r.operator, r.strValues) == Ok(r)
  }

  /** The token each binary operator is written with. */
  function OperatorToken(op: Operator): Token {
    match op
    case In => InToken
    case Equals => EqualsToken
    case DoubleEquals => DoubleEqualsToken
    case GreaterThan => GreaterThanToken
    case LessThan => LessThanToken
    case NotIn => NotInToken
    case NotEquals => NotEqualsToken
    case _ => ErrorToken
  }

  /** The switch of `parseOperator`: which operator a token stands for. */
  function TokenOperator(tok: Token): (r: Option<Operator>)
    ensures r.Some? ==> OperatorToken(r.value) == tok
  {
    match tok
    case InToken => Some(In)
    case EqualsToken => Some(Equals)
    case DoubleEqualsToken => Some(DoubleEquals)
    case GreaterThanToken => Some(GreaterThan)
    case LessThanToken => Some(LessThan)
    case NotInToken => Some(NotIn)
    case NotEqualsToken => Some(NotEquals)
    case _ => None
  }

  /** A step's result with the position the parser stands at afterwards. */
  function WithPosition<T>(r: Result<T, ParseError>, pos: nat): Result<(T, nat), ParseError> {
    match r
    case Ok(x) => Ok((x, pos))
    case Err(e) => Err(e)
  }

  // ------------------------------------------------------------ the steps

  /** `parseKeyAndInferOperator`: an optional `!`, then a valid key. A key followed by the
      end or a comma infers `Exists`, a `!` gives `DoesNotExist`; otherwise no operator is
      inferred yet. */
  function KeyAndInferOperatorAt(v: Validators, items: seq<ScannedItem>, pos: nat)
    : (r: Result<((string, Option<Operator>), nat), ParseError>)
    requires WellScanned(items) && pos < |items|
    ensures r.Ok? ==>
      var key, op, next := r.value.0.0, r.value.0.1, r.value.1;
      && pos < next < |items|
      && v.qualifiedName(key)
      && key == items[next - 1].literal
      && TokenIn(items[next - 1].tok, Values) == IdentifierToken
      && (op == Some(DoesNotExist) <==> items[pos].tok == DoesNotExistToken)
      && (op == Some(Exists) <==>
            items[pos].tok != DoesNotExistToken && items[next].tok in {EndOfStringToken, CommaToken})
      && (op.None? || op == Some(Exists) || op == Some(DoesNotExist))
  {
    var first := items[pos];
    var bang := first.tok == DoesNotExistToken;
    var at := if bang then pos + 1 else pos;
    var tok, literal, next := TokenIn(items[at].tok, Values), items[at].literal, at + 1;
    if tok != IdentifierToken then Err(Unexpected(literal, Identifier))
    else if !v.qualifiedName(literal) then Err(Rejected(InvalidKey(literal)))
    else
      var ahead := TokenIn(items[next].tok, Values);
      var op :=
        if bang then Some(DoesNotExist)
        else if ahead == EndOfStringToken || ahead == CommaToken then Some(Exists)
        else None;
      Ok(((literal, op), next))
  }

  /** `parseOperator`: exactly the seven binary-operator tokens are accepted, read in the
      `KeyAndOperator` context so `in` and `notin` count as operators here. */
  function OperatorAt(items: seq<ScannedItem>, pos: nat): (r: Result<(Operator, nat), ParseError>)
    requires WellScanned(items) && pos < |items|
    ensures r.Ok? <==> (items[pos].tok in
      {InToken, EqualsToken, DoubleEqualsToken, GreaterThanToken, LessThanToken, NotInToken, NotEqualsToken})
    ensures r.Ok? ==> r.value.1 == pos + 1 < |items| && OperatorToken(r.value.0) == items[pos].tok
    ensures r.Err? ==> r.error == Unexpected(items[pos].literal, OperatorSymbol)
  {
    match TokenOperator(TokenIn(items[pos].tok, KeyAndOperator))
    case Some(op) => Ok((op, pos + 1))
    case None => Err(Unexpected(items[pos].literal, OperatorSymbol))
  }

  /** `parseExactValue`: the end of input or a comma right after the operator means the
      empty value, which is then not consumed; otherwise one identifier is the value. */
  function ExactValueAt(items: seq<ScannedItem>, pos: nat): (r: Result<(seq<string>, nat), ParseError>)
    requires WellScanned(items) && pos < |items|
    ensures items[pos].tok in {EndOfStringToken, CommaToken} ==> r == Ok(([""], pos))
    ensures items[pos].tok !in {EndOfStringToken, CommaToken} ==>
      (r.Ok? <==> TokenIn(items[pos].tok, Values) == IdentifierToken)
    ensures r.Ok? && r.value.1 != pos ==> r.value == ([items[pos].literal], pos + 1) && pos + 1 < |items|
  {
    var tok := TokenIn(items[pos].tok, Values);
    if tok == EndOfStringToken || tok == CommaToken then Ok(([""], pos))
    else if tok == IdentifierToken then Ok(([items[pos].literal], pos + 1))
    else Err(Unexpected(items[pos].literal, Identifier))
  }

  /** The loop of `parseIdentifiersList` from `pos` with the values `s` gathered so far.
      It returns at the `)` that ends the list, without consuming it. A comma with nothing
      before it (at the start or after another comma) or before the `)` stands for the
      empty value. */
  function IdentifiersListAt(items: seq<ScannedItem>, pos: nat, s: seq<string>)
    : (r: Result<(seq<string>, nat), ParseError>)
    requires WellScanned(items) && pos < |items| && StringSets.IsStringSet(s)
    ensures r.Ok? ==>
      && pos < r.value.1 < |items|
      && items[r.value.1].tok == ClosedParToken
      && StringSets.IsStringSet(r.value.0)
      && |r.value.0| >= 1
      && (forall x :: x in s ==> x in r.value.0)
      && (items[r.value.1 - 1].tok == CommaToken ==> "" in r.value.0)
    decreases |items| - pos
  {
    var tok := TokenIn(items[pos].tok, Values);
    var lit := items[pos].literal;
    var next := pos + 1;
    if tok == IdentifierToken then
      var added := StringSets.Insert(s, lit);
      var ahead := TokenIn(items[next].tok, Values);
      if ahead == CommaToken then IdentifiersListAt(items, next, added)
      else if ahead == ClosedParToken then Ok((added, next))
      else Err(Unexpected(items[next].literal, CommaOrCloseParen))
    else if tok == CommaToken then
      var withLeading := if |s| == 0 then StringSets.Insert(s, "") else s;
      var ahead := TokenIn(items[next].tok, Values);
      if ahead == ClosedParToken then Ok((StringSets.Insert(withLeading, ""), next))
      else if ahead == CommaToken then IdentifiersListAt(items, next + 1, StringSets.Insert(withLeading, ""))
      else IdentifiersListAt(items, next, withLeading)
    else Err(Unexpected(lit, CommaOrIdentifier))
  }

  /** One round of the list loop on an identifier. */
  lemma ListStepIdentifier(items: seq<ScannedItem>, pos: nat, s: seq<string>)
    requires WellScanned(items) && pos < |items| && StringSets.IsStringSet(s)
    requires TokenIn(items[pos].tok, Values) == IdentifierToken
    ensures pos + 1 < |items|
    ensures var added := StringSets.Insert(s, items[pos].literal);
      var ahead := TokenIn(items[pos + 1].tok, Values);
      IdentifiersListAt(items, pos, s) ==
        if ahead == CommaToken then IdentifiersListAt(items, pos + 1, added)
        else if ahead == ClosedParToken then Ok((added, pos + 1))
        else Err(Unexpected(items[pos + 1].literal, CommaOrCloseParen))
  {
  }

  /** One round of the list loop on a comma. */
  lemma ListStepComma(items: seq<ScannedItem>, pos: nat, s: seq<string>)
    requires WellScanned(items) && pos < |items| && StringSets.IsStringSet(s)
    requires TokenIn(items[pos].tok, Values) == CommaToken
    ensures pos + 1 < |items|
    ensures var withLeading := if |s| == 0 then StringSets.Insert(s, "") else s;
      var ahead := TokenIn(items[pos + 1].tok, Values);
      IdentifiersListAt(items, pos, s) ==
        if ahead == ClosedParToken then Ok((StringSets.Insert(withLeading, ""), pos + 1))
        else if ahead == CommaToken then IdentifiersListAt(items, pos + 2, StringSets.Insert(withLeading, ""))
        else IdentifiersListAt(items, pos + 1, withLeading)
  {
  }

  /** `parseValues`: `(`, then a list of values, then `)`; `()` is the set holding only the
      empty value. The result is the set's `List()`: sorted and without duplicates. */
  function ValuesAt(items: seq<ScannedItem>, pos: nat): (r: Result<(seq<string>, nat), ParseError>)
    requires WellScanned(items) && pos < |items|
    ensures r.Ok? ==>
      && pos + 2 <= r.value.1 < |items|
      && items[pos].tok == OpenParToken
      && items[r.value.1 - 1].tok == ClosedParToken
      && StringSets.IsStringSet(r.value.0)
      && |r.value.0| >= 1
  {
    var tok := TokenIn(items[pos].tok, Values);
    if tok != OpenParToken then Err(Unexpected(items[pos].literal, OpenParen))
    else
      var next := pos + 1;
      var ahead := TokenIn(items[next].tok, Values);
      var lit := items[next].literal;
      if ahead == IdentifierToken || ahead == CommaToken then
        var list := IdentifiersListAt(items, next, []);
        // the list stops only in front of `)`, so the closing check always passes
        if list.Err? then Err(list.error) else Ok((list.value.0, list.value.1 + 1))
      else if ahead == ClosedParToken then Ok(([""], next + 1))
      else Err(Unexpected(lit, ValueSetStart))
  }

  /** `parseRequirement`: a key with an inferred `Exists` or `DoesNotExist` is complete;
      otherwise an operator follows, then a value set for `in`/`notin` or a single value.
      The requirement is built by `NewRequirement`, so it is always one it accepts, and a
      requirement never ends with the comma that separates it from the next. */
  function RequirementAt(v: Validators, items: seq<ScannedItem>, pos: nat)
    : (r: Result<(Requirement, nat), ParseError>)
    requires WellScanned(items) && pos < |items|
    ensures r.Ok? ==>
      && pos < r.value.1 < |items|
      && items[r.value.1 - 1].tok != CommaToken
      && Accepted(v, r.value.0)
      && (r.value.0.operator in {In, NotIn} ==> StringSets.IsStringSet(r.value.0.strValues))
  {
    var keyed := KeyAndInferOperatorAt(v, items, pos);
    if keyed.Err? then Err(keyed.error)
    else
      var key, inferred, next := keyed.value.0.0, keyed.value.0.1, keyed.value.1;
      assert items[next - 1].tok != CommaToken;
      AfterKeyAt(v, items, key, inferred, next)
  }

  /** The rest of `parseRequirement` once the key is read, up to `next`: the inferred
      `key` or `!key`, or an operator and its values. */
  function AfterKeyAt(v: Validators, items: seq<ScannedItem>, key: string, inferred: Option<Operator>, next: nat)
    : (r: Result<(Requirement, nat), ParseError>)
    requires WellScanned(items) && 0 < next < |items| && items[next - 1].tok != CommaToken
    ensures r.Ok? ==>
      && next <= r.value.1 < |items|
      && items[r.value.1 - 1].tok != CommaToken
      && Accepted(v, r.value.0)
      && (r.value.0.operator in {In, NotIn} ==> StringSets.IsStringSet(r.value.0.strValues))
  {
    if inferred == Some(Exists) || inferred == Some(DoesNotExist) then
      InferredRequirementAt(v, key, inferred.value, next)
    else OperatorRequirementAt(v, items, key, next)
  }

  /** A requirement whose operator the key alone decided (`key` or `!key`): it has no
      values and ends where the key does. */
  function InferredRequirementAt(v: Validators, key: string, op: Operator, next: nat)
    : (r: Result<(Requirement, nat), ParseError>)
    ensures r.Ok? ==> r.value.1 == next && r.value.0.operator == op && Accepted(v, r.value.0)
  {
    var made := NewRequirement(v, key, op, []);
    if made.Err? then Err(Rejected(made.error)) else Ok((made.value, next))
  }

  /** The rest of `parseRequirement` once the key is read and no operator inferred: the
      operator, then a value set for `in` and `notin` or one exact value otherwise. */
  function OperatorRequirementAt(v: Validators, items: seq<ScannedItem>, key: string, next: nat)
    : (r: Result<(Requirement, nat), ParseError>)
    requires WellScanned(items) && next < |items|
    ensures r.Ok? ==>
      && next < r.value.1 < |items|
      && items[r.value.1 - 1].tok != CommaToken
      && Accepted(v, r.value.0)
      && (r.value.0.operator in {In, NotIn} ==> StringSets.IsStringSet(r.value.0.strValues))
  {
    var operator := OperatorAt(items, next);
    if operator.Err? then Err(operator.error)
    else
      var op, afterOp := operator.value.0, operator.value.1;
      assert OperatorToken(op) != CommaToken;
      var values := OperandsAt(op, items, afterOp);
      if values.Err? then Err(values.error)
      else
        var made := NewRequirement(v, key, op, values.value.0);
        if made.Err? then Err(Rejected(made.error)) else Ok((made.value, values.value.1))
  }

  /** The `switch` on the operator in `parseRequirement`: a value set for `in` and `notin`,
      one exact value for the other five binary operators. What it consumes never ends in a
      comma. */
  function OperandsAt(op: Operator, items: seq<ScannedItem>, pos: nat): (r: Result<(seq<string>, nat), ParseError>)
    requires WellScanned(items) && pos < |items|
    ensures r.Ok? ==>
      && pos <= r.value.1 < |items|
      && (r.value.1 > pos ==> items[r.value.1 - 1].tok != CommaToken)
      && (op in {In, NotIn} ==> StringSets.IsStringSet(r.value.0))
  {
    if op == In || op == NotIn then ValuesAt(items, pos) else ExactValueAt(items, pos)
  }

  /** The loop of `parse` from `pos`, with the requirements `acc` read so far: requirements
      separated by commas up to the end of input; each must start with an identifier or `!`. */
  function LoopAt(v: Validators, items: seq<ScannedItem>, pos: nat, acc: seq<Requirement>)
    : (r: Result<seq<Requirement>, ParseError>)
    requires WellScanned(items) && pos < |items|
    decreases |items| - pos
  {
    var tok := TokenIn(items[pos].tok, Values);
    if tok == IdentifierToken || tok == DoesNotExistToken then
      var step := RequirementAt(v, items, pos);
      if step.Err? then Err(InRequirement(step.error))
      else AfterRequirementAt(v, items, step.value.1, acc + [step.value.0])
    else if tok == EndOfStringToken then Ok(acc)
    else Err(Unexpected(items[pos].literal, RequirementStart))
  }

  /** The rest of one round of the `parse` loop, once a requirement has been read up to
      `next`: the end of input, or a comma and a token that starts the next requirement. */
  function AfterRequirementAt(v: Validators, items: seq<ScannedItem>, next: nat, reqs: seq<Requirement>)
    : (r: Result<seq<Requirement>, ParseError>)
    requires WellScanned(items) && next < |items|
    decreases |items| - next
  {
    var t := TokenIn(items[next].tok, Values);
    if t == EndOfStringToken then Ok(reqs)
    else if t == CommaToken then
      var ahead := TokenIn(items[next + 1].tok, Values);
      if ahead != IdentifierToken && ahead != DoesNotExistToken then
        Err(Unexpected(items[next + 1].literal, IdentifierAfterComma))
      else
        LoopAt(v, items, next + 1, reqs)
    else Err(Unexpected(items[next].literal, CommaOrEnd))
  }

  /** A round of the `parse` loop that reads a requirement goes on after it. */
  lemma LoopAtStep(v: Validators, items: seq<ScannedItem>, pos: nat, acc: seq<Requirement>)
    requires WellScanned(items) && pos < |items|
    requires TokenIn(items[pos].tok, Values) in {IdentifierToken, DoesNotExistToken}
    requires RequirementAt(v, items, pos).Ok?
    ensures var step := RequirementAt(v, items, pos);
      LoopAt(v, items, pos, acc) == AfterRequirementAt(v, items, step.value.1, acc + [step.value.0])
  {
  }

  /** A comma followed by the start of a requirement begins the next round. */
  lemma AfterRequirementComma(v: Validators, items: seq<ScannedItem>, next: nat, reqs: seq<Requirement>)
    requires WellScanned(items) && next + 1 < |items| && items[next].tok == CommaToken
    requires TokenIn(items[next + 1].tok, Values) in {IdentifierToken, DoesNotExistToken}
    ensures AfterRequirementAt(v, items, next, reqs) == LoopAt(v, items, next + 1, reqs)
  {
  }

  /** The loop only ever appends, and only requirements `NewRequirement` accepts. */
  lemma {:induction false} LoopAtAccepted(v: Validators, items: seq<ScannedItem>, pos: nat, acc: seq<Requirement>)
    requires WellScanned(items) && pos < |items|
    ensures var r := LoopAt(v, items, pos, acc);
      r.Ok? ==> && |acc| <= |r.value| && r.value[..|acc|] == acc
                && forall i :: |acc| <= i < |r.value| ==> Accepted(v, r.value[i])
    decreases |items| - pos
  {
    var tok := TokenIn(items[pos].tok, Values);
    if tok == IdentifierToken || tok == DoesNotExistToken {
      var step := RequirementAt(v, items, pos);
      if step.Ok? {
        var r := AfterRequirementAt(v, items, step.value.1, acc + [step.value.0]);
        AfterRequirementAccepted(v, items, step.value.1, acc + [step.value.0]);
        if r.Ok? {
          AcceptedExtends(v, acc, step.value.0, r.value);
        }
      }
    }
  }

  lemma {:induction false} AfterRequirementAccepted(v: Validators, items: seq<ScannedItem>, next: nat,
                                                    reqs: seq<Requirement>)
    requires WellScanned(items) && next < |items|
    ensures var r := AfterRequirementAt(v, items, next, reqs);
      r.Ok? ==> && |reqs| <= |r.value| && r.value[..|reqs|] == reqs
                && forall i :: |reqs| <= i < |r.value| ==> Accepted(v, r.value[i])
    decreases |items| - next
  {
    if TokenIn(items[next].tok, Values) == CommaToken {
      var ahead := TokenIn(items[next + 1].tok, Values);
      if ahead == IdentifierToken || ahead == DoesNotExistToken {
        LoopAtAccepted(v, items, next + 1, reqs);
      }
    }
  }

  lemma AcceptedExtends(v: Validators, acc: seq<Requirement>, req: Requirement, rs: seq<Requirement>)
    requires Accepted(v, req)
    requires |acc| + 1 <= |rs| && rs[..|acc| + 1] == acc + [req]
    requires forall i :: |acc| + 1 <= i < |rs| ==> Accepted(v, rs[i])
    ensures rs[..|acc|] == acc
    ensures forall i :: |acc| <= i < |rs| ==> Accepted(v, rs[i])
  {
    assert rs[..|acc|] == rs[..|acc| + 1][..|acc|];
    assert rs[|acc|] == rs[..|acc| + 1][|acc|];
  }

  /** `parse(selector)`: scans, parses, and on success sorts the requirements by key. */
  function ParsedRequirements(v: Validators, selector: string): (r: Result<seq<Requirement>, ParseError>)
    ensures r.Ok? ==> Sorting.SortedBy(r.value, ByKey())
    ensures r.Ok? ==> forall q :: q in r.value ==> Accepted(v, q)
  {
    var items := ScanFrom(selector, 0);
    LoopAtAccepted(v, items, 0, []);
    match LoopAt(v, items, 0, [])
    case Err(e) => Err(e)
    case Ok(reqs) =>
      var sorted := SortByKey(reqs);
      assert forall q :: q in sorted ==> q in reqs by {
        forall q | q in sorted ensures q in reqs {
          assert q in multiset(sorted);
        }
      }
      Ok(sorted)
  }

  /** `Parse(selector)`: the requirements as a selector, or the error and no selector. */
  function ParsedSelector(v: Validators, selector: string): (r: Result<Selector, ParseError>)
    ensures r.Ok? <==> ParsedRequirements(v, selector).Ok?
    ensures r.Ok? ==> r.value == Internal(ParsedRequirements(v, selector).value)
  {
    match ParsedRequirements(v, selector)
    case Err(e) => Err(e)
    case Ok(reqs) => Ok(Internal(reqs))
  }

  // ------------------------------------------------------------ properties

  /** A round of the `parse` loop that reads a requirement and then a comma goes on with
      the next requirement. */
  lemma LoopThroughComma(v: Validators, items: seq<ScannedItem>, pos: nat, acc: seq<Requirement>,
                         r: Requirement, next: nat)
    requires WellScanned(items) && pos < |items| && next + 1 < |items|
    requires TokenIn(items[pos].tok, Values) in {IdentifierToken, DoesNotExistToken}
    requires RequirementAt(v, items, pos) == Ok((r, next))
    requires items[next].tok == CommaToken
    requires TokenIn(items[next + 1].tok, Values) in {IdentifierToken, DoesNotExistToken}
    ensures LoopAt(v, items, pos, acc) == LoopAt(v, items, next + 1, acc + [r])
  {
    LoopAtStep(v, items, pos, acc);
    AfterRequirementComma(v, items, next, acc + [r]);
  }

  /** A round of the `parse` loop that reads a requirement up to the end token ends the
      loop with that requirement appended. */
  lemma LoopThroughEnd(v: Validators, items: seq<ScannedItem>, pos: nat, acc: seq<Requirement>,
                       r: Requirement, next: nat)
    requires WellScanned(items) && pos < |items|
    requires TokenIn(items[pos].tok, Values) in {IdentifierToken, DoesNotExistToken}
    requires RequirementAt(v, items, pos) == Ok((r, next))
    requires items[next].tok == EndOfStringToken
    ensures LoopAt(v, items, pos, acc) == Ok(acc + [r])
  {
    LoopAtStep(v, items, pos, acc);
  }

  /** What the loop reads from the scanned selector, sorted by key, is the parsed selector. */
  lemma ParsedFromLoop(v: Validators, selector: string, reqs: seq<Requirement>)
    requires LoopAt(v, ScanFrom(selector, 0), 0, []) == Ok(reqs)
    ensures ParsedSelector(v, selector) == Ok(Internal(SortByKey(reqs)))
  {
  }

  /** A selector whose tokens end in a comma does not parse: the comma must be followed by
      an identifier or `!`. Stated the other way round: whatever the loop accepts does not
      end in a comma. */
  lemma {:induction false} TrailingCommaRejected(v: Validators, items: seq<ScannedItem>, pos: nat, acc: seq<Requirement>)
    requires WellScanned(items) && pos < |items| - 1
    ensures LoopAt(v, items, pos, acc).Ok? ==> items[|items| - 2].tok != CommaToken
    decreases |items| - pos
  {
    var tok := TokenIn(items[pos].tok, Values);
    if tok == IdentifierToken || tok == DoesNotExistToken {
      var step := RequirementAt(v, items, pos);
      if step.Ok? {
        TrailingCommaRejectedAfter(v, items, step.value.1, acc + [step.value.0]);
      }
    }
  }

  lemma {:induction false} TrailingCommaRejectedAfter(v: Validators, items: seq<ScannedItem>, next: nat,
                                                      reqs: seq<Requirement>)
    requires WellScanned(items) && 0 < next < |items| && items[next - 1].tok != CommaToken
    ensures AfterRequirementAt(v, items, next, reqs).Ok? ==> items[|items| - 2].tok != CommaToken
    decreases |items| - next
  {
    var t := TokenIn(items[next].tok, Values);
    if t == EndOfStringToken {
      assert next == |items| - 1;
    } else if t == CommaToken {
      var ahead := TokenIn(items[next + 1].tok, Values);
      if ahead == IdentifierToken || ahead == DoesNotExistToken {
        assert items[next + 1].tok != EndOfStringToken;
        TrailingCommaRejected(v, items, next + 1, reqs);
      }
    }
  }

  /** The `parse` loop fails at once on a token that cannot start a requirement, and when
      the requirement there does not parse. */
  lemma LoopAtRejects(v: Validators, items: seq<ScannedItem>, pos: nat, acc: seq<Requirement>)
    requires WellScanned(items) && pos < |items|
    ensures var tok := TokenIn(items[pos].tok, Values);
      tok !in {IdentifierToken, DoesNotExistToken, EndOfStringToken} ==> LoopAt(v, items, pos, acc).Err?
    ensures var tok := TokenIn(items[pos].tok, Values);
      tok in {IdentifierToken, DoesNotExistToken} && RequirementAt(v, items, pos).Err? ==>
        LoopAt(v, items, pos, acc) == Err(InRequirement(RequirementAt(v, items, pos).error))
  {
  }

  /** A key followed by the end or a comma is the requirement that the key exists. */
  lemma ExistsInferred(v: Validators, items: seq<ScannedItem>, pos: nat)
    requires WellScanned(items) && pos + 1 < |items|
    requires TokenIn(items[pos].tok, Values) == IdentifierToken && v.qualifiedName(items[pos].literal)
    requires items[pos + 1].tok in {EndOfStringToken, CommaToken}
    ensures RequirementAt(v, items, pos) == Ok((Requirement(items[pos].literal, Exists, []), pos + 1))
  {
  }

  /** `!` and a key is the requirement that the key is absent; no operator is parsed after
      it, whatever follows. */
  lemma DoesNotExistParsed(v: Validators, items: seq<ScannedItem>, pos: nat)
    requires WellScanned(items) && pos + 2 < |items|
    requires items[pos].tok == DoesNotExistToken
    requires TokenIn(items[pos + 1].tok, Values) == IdentifierToken && v.qualifiedName(items[pos + 1].literal)
    ensures RequirementAt(v, items, pos) == Ok((Requirement(items[pos + 1].literal, DoesNotExist, []), pos + 2))
  {
  }

  /** `()` is the value set holding only the empty value. */
  lemma EmptyParens(items: seq<ScannedItem>, pos: nat)
    requires WellScanned(items) && pos + 1 < |items|
    requires items[pos].tok == OpenParToken && items[pos + 1].tok == ClosedParToken
    ensures ValuesAt(items, pos) == Ok(([""], pos + 2))
  {
  }

  /** In the list loop, two commas in a row (at `j` and `j + 1`) add the empty value. */
  lemma {:induction false} DoubledCommaGivesEmpty(items: seq<ScannedItem>, pos: nat, s: seq<string>, j: nat)
    requires WellScanned(items) && pos < |items| && StringSets.IsStringSet(s)
    requires pos <= j && j + 1 < |items| && items[j].tok == CommaToken && items[j + 1].tok == CommaToken
    ensures var r := IdentifiersListAt(items, pos, s);
      r.Ok? && j + 1 < r.value.1 ==> "" in r.value.0
    decreases |items| - pos
  {
    var r := IdentifiersListAt(items, pos, s);
    if r.Ok? && j + 1 < r.value.1 {
      var tok := TokenIn(items[pos].tok, Values);
      var next := pos + 1;
      var ahead := TokenIn(items[next].tok, Values);
      if tok == IdentifierToken {
        DoubledCommaGivesEmpty(items, next, StringSets.Insert(s, items[pos].literal), j);
      } else {
        var withLeading := if |s| == 0 then StringSets.Insert(s, "") else s;
        if ahead != CommaToken && ahead != ClosedParToken {
          DoubledCommaGivesEmpty(items, next, withLeading, j);
        }
      }
    }
  }

  /** A value list with a comma right after `(`, a comma right before `)`, or two commas in
      a row (at `j` and `j + 1`) holds the empty value. */
  lemma EmptyValueInList(items: seq<ScannedItem>, pos: nat, j: nat)
    requires WellScanned(items) && pos < |items|
    ensures var r := ValuesAt(items, pos);
      r.Ok? ==>
        (|| items[pos + 1].tok == CommaToken
         || items[r.value.1 - 2].tok == CommaToken
         || (pos < j && j + 2 < r.value.1 && items[j].tok == CommaToken && items[j + 1].tok == CommaToken)
        ) ==> "" in r.value.0
  {
    var r := ValuesAt(items, pos);
    if r.Ok? && TokenIn(items[pos + 1].tok, Values) != ClosedParToken {
      if pos < j && j + 2 < r.value.1 && items[j].tok == CommaToken && items[j + 1].tok == CommaToken {
        DoubledCommaGivesEmpty(items, pos + 1, [], j);
      }
    }
  }

  /** In a value list `in` is a value, while after a key it is the operator:
      `x in (in)` is the requirement that `x` is `"in"`. */
  lemma InAsValue(v: Validators)
    requires v.qualifiedName("x") && v.labelValue("in")
    ensures var items := [ScannedItem(IdentifierToken, "x"), ScannedItem(InToken, "in"),
                          ScannedItem(OpenParToken, "("), ScannedItem(InToken, "in"),
                          ScannedItem(ClosedParToken, ")"), ScannedItem(EndOfStringToken, "")];
      LoopAt(v, items, 0, []) == Ok([Requirement("x", In, ["in"])])
  {
    var items := [ScannedItem(IdentifierToken, "x"), ScannedItem(InToken, "in"),
                  ScannedItem(OpenParToken, "("), ScannedItem(InToken, "in"),
                  ScannedItem(ClosedParToken, ")"), ScannedItem(EndOfStringToken, "")];
    assert WellScanned(items);
    assert KeyAndInferOperatorAt(v, items, 0) == Ok((("x", None), 1));
    assert OperatorAt(items, 1) == Ok((In, 2));
    assert StringSets.Insert([], "in") == ["in"];
    assert IdentifiersListAt(items, 3, []) == Ok((["in"], 4));
    assert ValuesAt(items, 2) == Ok((["in"], 5));
    assert FirstInvalidValue(v, ["in"]) == None by {
      assert FirstInvalidValue(v, ["in"][1..]) == None;
    }
    assert NewRequirement(v, "x", In, ["in"]) == Ok(Requirement("x", In, ["in"]));
    assert RequirementAt(v, items, 0) == Ok((Requirement("x", In, ["in"]), 5));
    assert AfterRequirementAt(v, items, 5, [Requirement("x", In, ["in"])]) == Ok([Requirement("x", In, ["in"])]);
    assert [] + [Requirement("x", In, ["in"])] == [Requirement("x", In, ["in"])];
  }

  /** An empty selector string parses to the selector without requirements. */
  lemma ParseEmptyString(v: Validators)
    ensures ParsedSelector(v, "") == Ok(Everything())
  {
    assert ScanFrom("", 0) == [ScannedItem(EndOfStringToken, "")];
  }

  // ------------------------------------------------------------ the parser

  /** `scan` stops after the end token. */
  lemma {:induction false} ScanAtEnd(s: string, p: nat, a: ScannedItem, e: nat)
    requires p <= |s| && LexAt(s, p) == (a, e) && a.tok == EndOfStringToken
    ensures ScanFrom(s, p) == [a]
  {
  }

  /** `scan` goes on after any other token, from where `Lex` left off. */
  lemma {:induction false} ScanBeforeMore(s: string, p: nat, a: ScannedItem, e: nat)
    requires p <= |s| && LexAt(s, p) == (a, e) && a.tok != EndOfStringToken
    ensures e <= |s| && ScanFrom(s, p) == [a] + ScanFrom(s, e)
  {
  }

  /** The parser's state: its lexer, the buffered tokens and the current index. */
  class Parser {
    const v: Validators
    const l: Lexer
    var scannedItems: seq<ScannedItem>
    var position: nat

    constructor (v: Validators, selector: string)
      ensures this.v == v && fresh(l) && l.s == selector && l.pos == 0 && l.Valid()
      ensures scannedItems == [] && position == 0
    {
      this.v := v;
      l := new Lexer(selector);
      scannedItems := [];
      position := 0;
    }

    /** Tokens are buffered and the index is on one of them. */
    ghost predicate Ready()
      reads this
    {
      WellScanned(scannedItems) && position < |scannedItems|
    }

    method Lookahead(context: ParserContext) returns (tok: Token, lit: string)
      requires position < |scannedItems|
      ensures tok == TokenIn(scannedItems[position].tok, context) && lit == scannedItems[position].literal
    {
      tok, lit := scannedItems[position].tok, scannedItems[position].literal;
      if context == Values && (tok == InToken || tok == NotInToken) {
        tok := IdentifierToken;
      }
    }

    method Consume(context: ParserContext) returns (tok: Token, lit: string)
      requires position < |scannedItems|
      modifies this
      ensures position == old(position) + 1 && scannedItems == old(scannedItems)
      ensures tok == TokenIn(scannedItems[old(position)].tok, context) && lit == scannedItems[old(position)].literal
    {
      position := position + 1;
      tok, lit := scannedItems[position - 1].tok, scannedItems[position - 1].literal;
      if context == Values && (tok == InToken || tok == NotInToken) {
        tok := IdentifierToken;
      }
    }

    /** `scan`: lexes up to and including the first end token. */
    method Scan()
      requires l.Valid()
      modifies this, l
      ensures scannedItems == old(scannedItems) + ScanFrom(l.s, old(l.pos))
      ensures position == old(position)
    {
      ghost var start := l.pos;
      while true
        invariant l.Valid()
        invariant old(scannedItems) + ScanFrom(l.s, start) == scannedItems + ScanFrom(l.s, l.pos)
        invariant position == old(position)
        decreases |l.s| - l.pos
      {
        ghost var before := l.pos;
        var token, literal := l.Lex();
        if token == EndOfStringToken {
          ScanAtEnd(l.s, before, ScannedItem(token, literal), l.pos);
        } else {
          ScanBeforeMore(l.s, before, ScannedItem(token, literal), l.pos);
          assert scannedItems + ([ScannedItem(token, literal)] + ScanFrom(l.s, l.pos))
              == (scannedItems + [ScannedItem(token, literal)]) + ScanFrom(l.s, l.pos);
        }
        scannedItems := scannedItems + [ScannedItem(token, literal)];
        if token == EndOfStringToken {
          break;
        }
      }
    }

    method ParseKeyAndInferOperator() returns (r: Result<(string, Option<Operator>), ParseError>)
      requires Ready()
      modifies this
      ensures scannedItems == old(scannedItems)
      ensures WithPosition(r, position) == KeyAndInferOperatorAt(v, scannedItems, old(position))
    {
      var operator: Option<Operator> := None;
      var tok, literal := Consume(Values);
      if tok == DoesNotExistToken {
        operator := Some(DoesNotExist);
        tok, literal := Consume(Values);
      }
      if tok != IdentifierToken {
        return Err(Unexpected(literal, Identifier));
      }
      if !v.qualifiedName(literal) {
        return Err(Rejected(InvalidKey(literal)));
      }
      var t, _ := Lookahead(Values);
      if t == EndOfStringToken || t == CommaToken {
        if operator != Some(DoesNotExist) {
          operator := Some(Exists);
        }
      }
      return Ok((literal, operator));
    }

    method ParseOperator() returns (r: Result<Operator, ParseError>)
      requires Ready()
      modifies this
      ensures scannedItems == old(scannedItems)
      ensures WithPosition(r, position) == OperatorAt(scannedItems, old(position))
    {
      var tok, lit := Consume(KeyAndOperator);
      match TokenOperator(tok)
      case Some(op) => return Ok(op);
      case None => return Err(Unexpected(lit, OperatorSymbol));
    }

    method ParseValues() returns (r: Result<seq<string>, ParseError>)
      requires Ready()
      modifies this
      ensures scannedItems == old(scannedItems)
      ensures WithPosition(r, position) == ValuesAt(scannedItems, old(position))
    {
      var tok, lit := Consume(Values);
      if tok != OpenParToken {
        return Err(Unexpected(lit, OpenParen));
      }
      tok, lit := Lookahead(Values);
      if tok == IdentifierToken || tok == CommaToken {
        var s := ParseIdentifiersList();
        if s.Err? {
          return Err(s.error);
        }
        var closing, _ := Consume(Values);
        // the list stops only in front of `)`
        assert closing == ClosedParToken;
        return Ok(s.value);
      } else if tok == ClosedParToken {
        var _, _ := Consume(Values);
        return Ok([""]);
      } else {
        return Err(Unexpected(lit, ValueSetStart));
      }
    }

    method ParseIdentifiersList() returns (r: Result<seq<string>, ParseError>)
      requires Ready()
      modifies this
      ensures scannedItems == old(scannedItems)
      ensures WithPosition(r, position) == IdentifiersListAt(scannedItems, old(position), [])
    {
      ghost var items, goal := scannedItems, IdentifiersListAt(scannedItems, position, []);
      var s: seq<string> := [];
      while true
        invariant Ready() && scannedItems == items && StringSets.IsStringSet(s)
        invariant IdentifiersListAt(items, position, s) == goal
        decreases |scannedItems| - position
      {
        var done;
        done, r, s := ListRound(s);
        if done {
          return;
        }
      }
    }

    /** One round of the loop of `parseIdentifiersList` with the values `s` gathered so far:
        it stops at the `)` or on an error, and otherwise returns the values to go on with. */
    method ListRound(s: seq<string>) returns (done: bool, r: Result<seq<string>, ParseError>, s': seq<string>)
      requires Ready() && StringSets.IsStringSet(s)
      modifies this
      ensures scannedItems == old(scannedItems)
      ensures done ==> WithPosition(r, position) == IdentifiersListAt(scannedItems, old(position), s)
      ensures !done ==>
        && Ready() && old(position) < position && StringSets.IsStringSet(s')
        && IdentifiersListAt(scannedItems, position, s') == IdentifiersListAt(scannedItems, old(position), s)
    {
      ghost var here := position;
      s' := s;
      var tok, lit := Consume(Values);
      if tok == IdentifierToken {
        ListStepIdentifier(scannedItems, here, s);
        s' := StringSets.Insert(s', lit);
        var tok2, lit2 := Lookahead(Values);
        if tok2 == CommaToken {
          return false, Ok(s'), s';
        } else if tok2 == ClosedParToken {
          return true, Ok(s'), s';
        } else {
          return true, Err(Unexpected(lit2, CommaOrCloseParen)), s';
        }
      } else if tok == CommaToken {
        ListStepComma(scannedItems, here, s);
        if |s'| == 0 {
          s' := StringSets.Insert(s', "");
        }
        var tok2, _ := Lookahead(Values);
        if tok2 == ClosedParToken {
          s' := StringSets.Insert(s', "");
          return true, Ok(s'), s';
        }
        if tok2 == CommaToken {
          var _, _ := Consume(Values);
          s' := StringSets.Insert(s', "");
        }
        return false, Ok(s'), s';
      } else {
        return true, Err(Unexpected(lit, CommaOrIdentifier)), s';
      }
    }

    method ParseExactValue() returns (r: Result<seq<string>, ParseError>)
      requires Ready()
      modifies this
      ensures scannedItems == old(scannedItems)
      ensures WithPosition(r, position) == ExactValueAt(scannedItems, old(position))
    {
      var tok, lit := Lookahead(Values);
      if tok == EndOfStringToken || tok == CommaToken {
        return Ok([""]);
      }
      tok, lit := Consume(Values);
      if tok == IdentifierToken {
        return Ok([lit]);
      }
      return Err(Unexpected(lit, Identifier));
    }

    method ParseRequirement() returns (r: Result<Requirement, ParseError>)
      requires Ready()
      modifies this
      ensures scannedItems == old(scannedItems)
      ensures WithPosition(r, position) == RequirementAt(v, scannedItems, old(position))
    {
      var keyAndOperator := ParseKeyAndInferOperator();
      if keyAndOperator.Err? {
        return Err(keyAndOperator.error);
      }
      var key, inferred := keyAndOperator.value.0, keyAndOperator.value.1;
      if inferred == Some(Exists) || inferred == Some(DoesNotExist) {
        var made := NewRequirement(v, key, inferred.value, []);
        if made.Err? {
          return Err(Rejected(made.error));
        }
        return Ok(made.value);
      }
      var op := ParseOperator();
      if op.Err? {
        return Err(op.error);
      }
      var values: Result<seq<string>, ParseError>;
      // `parseOperator` yields only the seven binary operators
      if op.value == In || op.value == NotIn {
        values := ParseValues();
      } else {
        values := ParseExactValue();
      }
      if values.Err? {
        return Err(values.error);
      }
      var made := NewRequirement(v, key, op.value, values.value);
      if made.Err? {
        return Err(Rejected(made.error));
      }
      return Ok(made.value);
    }

    /** `parse`: buffers the tokens, then reads requirements separated by commas. */
    method Parse() returns (r: Result<seq<Requirement>, ParseError>)
      requires l.Valid() && scannedItems == [] && position == 0
      modifies this, l
      ensures r == LoopAt(v, ScanFrom(l.s, old(l.pos)), 0, [])
    {
      Scan();
      assert scannedItems == ScanFrom(l.s, old(l.pos)) by {
        assert old(scannedItems) == [];
      }
      r := ParseScanned();
    }

    /** The inner `switch` of the `parse` loop after a requirement: stops at the end of
        input or on an error, and goes on only after a comma that the start of another
        requirement follows. */
    method AfterRequirement(reqs: seq<Requirement>) returns (done: bool, r: Result<seq<Requirement>, ParseError>)
      requires Ready()
      modifies this
      ensures scannedItems == old(scannedItems)
      ensures done ==> r == AfterRequirementAt(v, scannedItems, old(position), reqs)
      ensures !done ==> && Ready() && position == old(position) + 1
                        && AfterRequirementAt(v, scannedItems, old(position), reqs) == LoopAt(v, scannedItems, position, reqs)
    {
      var t, l2 := Consume(Values);
      if t == EndOfStringToken {
        return true, Ok(reqs);
      } else if t == CommaToken {
        var t2, l3 := Lookahead(Values);
        if t2 != IdentifierToken && t2 != DoesNotExistToken {
          return true, Err(Unexpected(l3, IdentifierAfterComma));
        }
        AfterRequirementComma(v, scannedItems, position - 1, reqs);
        return false, Ok(reqs);
      } else {
        return true, Err(Unexpected(l2, CommaOrEnd));
      }
    }

    /** The loop of `parse`, over the tokens already buffered. */
    method ParseScanned() returns (r: Result<seq<Requirement>, ParseError>)
      requires Ready() && position == 0
      modifies this
      ensures r == LoopAt(v, old(scannedItems), 0, [])
    {
      ghost var items := scannedItems;
      var requirements: seq<Requirement> := [];
      while true
        invariant Ready() && scannedItems == items
        invariant LoopAt(v, scannedItems, position, requirements) == LoopAt(v, scannedItems, 0, [])
        decreases |scannedItems| - position
      {
        var tok, lit := Lookahead(Values);
        if tok == IdentifierToken || tok == DoesNotExistToken {
          ghost var here := position;
          var req := ParseRequirement();
          if req.Err? {
            return Err(InRequirement(req.error));
          }
          LoopAtStep(v, scannedItems, here, requirements);
          requirements := requirements + [req.value];
          var done;
          done, r := AfterRequirement(requirements);
          if done {
            return;
          }
        } else if tok == EndOfStringToken {
          return Ok(requirements);
        } else {
          return Err(Unexpected(lit, RequirementStart));
        }
      }
    }
  }

  /** `Parse(selector)`: a fresh parser over the input; on success the requirements are
      sorted by key, on failure no selector is returned. */
  method Parse(v: Validators, selector: string) returns (r: Result<Selector, ParseError>)
    ensures r == ParsedSelector(v, selector)
  {
    var p := new Parser(v, selector);
    var items := p.Parse();
    if items.Err? {
      return Err(items.error);
    }
    return Ok(Internal(SortByKey(items.value)));
  }
}
