# IAM component-base core in Dafny

This project models, in Dafny, the self-contained core of the `component-base` package of
the IAM system, together with its error-code registry. It covers:

- **Label selectors.** A `Requirement` holds a key, an operator and values, is built by
  `NewRequirement`, matches a label map and renders as text. A selector is a list of
  requirements sorted by key, or the `Nothing` selector. The lexer and the
  recursive-descent parser turn selector text such as `x in (a,b),!y,z>3` into a selector.
  Selectors can also be built from a label map.
- **`sets.Int32`, `sets.Int64` and `sets.Byte`.** The three files are one template. They
  are modelled as one class, `IntSets.IntSet`, whose `Kind` fixes the element range.
- **Command-line flag values.**
  - `MapStringString` and `MapStringBool` parse `k=v,k=v` lists into a map that the flag
    points at, and render the map back, sorted.
  - `NamedCertKey` parses `cert,key[:name,name]`.
  - `NamedCertKeyArray` collects repeated `NamedCertKey`s.
- **`fields.Set`:** `Has`, `Get` and `String`.
- **Error codes:** `Register`, `MustRegister`, `ParseCoder`, `IsCode` and `HTTPStatus`
  over the package-wide `codes` map.

## Form of the model

The form of each part follows the Go code.

- **Pure parts are functions.**
  - Requirement matching, `NewRequirement`, rendering, selector operations, the lexer
    steps, the parser steps and the flag-text formats are functions on values, with
    lemmas about them.
  - A Go method on a value receiver (`Selector.Add`, `fields.Set.Get`) is a function of
    the value.
- **Objects that Go updates in place are classes with `modifies` clauses.** Each method
  is proved against a specification function:
  - `SelectorLexer.Lexer` (the cursor `pos`);
  - `SelectorParser.Parser` (`scannedItems` and `position`);
  - `IntSets.IntSet` (a Go map, so an insert through one alias is visible through every
    alias);
  - the flag types;
  - `ErrorCodes.Registry` (the package-level `codes` map).
- **Data held behind a Go pointer is an object the flag refers to.** `*map[string]string`
  becomes `MapFlags.MapVar`, and `*[]NamedCertKey` becomes `CertKeyFlags.CertKeyList`.
  `Set` writes through it.
- **Go `range` over a map visits keys in an unspecified order.**
  - Loops over maps pick an arbitrary remaining key (`:|`).
  - Their specification is the multiset of what each entry contributes
    (`Enumeration.Image`).
  - Where the result is then sorted, the lemmas show it does not depend on the visiting
    order (`Sorting.SortedUnique`).
- **Validators and the integer parser.**
  - `validation.IsQualifiedName` and `IsValidLabelValue` are a `Validators` parameter.
  - `strconv.ParseInt` is `GoStrings.ParseInt64`: optional sign, decimal digits, 64-bit
    range.
  - `strconv.ParseBool` is `GoStrings.ParseBool`, which accepts exactly the twelve
    spellings.
- **Strings are `seq<char>`.** The model compares code points, which orders strings as
  UTF-8 byte comparison does.

### Behaviour the model reproduces as written

- **The lexer.** A NUL character inside an identifier or a run of special symbols ends
  that token and is consumed. Scanning then continues after it.
- **Value lists.**
  - A list `(a,,)` is rejected. After an identifier, `,,` consumes both commas, and the
    loop then meets `)` where it expects an identifier or a comma.
  - `(a,,,)` is accepted, with the empty value.
- **`NamedCertKey.Set`.** When the key/cert part is not a comma-separated pair, the new
  names are kept and the files are left as they were.

## Model

| member | source | states |
|---|---|---|
| LabelRequirements.Has | pkg/component-base/labels/requirements.go:90 | the label lookup `Has` holds exactly when the key is in the label map |
| LabelRequirements.Get | pkg/component-base/labels/requirements.go:93 | `Get` yields the stored value, or "" for a missing key |
| LabelRequirements.CheckArity | pkg/component-base/labels/requirements.go:42-66 | the operator switch passes exactly when the value count fits the operator (in/notin: at least one; exact match and gt/lt: one, gt/lt an int64; exists: none; any other operator fails) |
| LabelRequirements.FirstInvalidValue | pkg/component-base/labels/requirements.go:68-72 | reports the first value the label-value validator rejects, or none when all pass |
| LabelRequirements.NewRequirement | pkg/component-base/labels/requirements.go:38-74 | succeeds iff the key is valid, the arity rule holds and every value is valid; a result holds exactly the given key, operator and values; an invalid key is reported before anything else, and an arity failure is not reported as a value error |
| LabelRequirements.Matches | pkg/component-base/labels/requirements.go:87-134 | the match table: in/=/== need the key with one of the values; notin/!= hold when the key is absent or its value is not listed; exists and does-not-exist test the key; gt/lt need the key, one value, both sides parsing as int64 and the strict comparison; an unknown operator never matches |
| LabelRequirements.HasValue | pkg/component-base/labels/requirements.go:136-143 | true exactly when the value is one of the requirement's values |
| LabelRequirements.Values | pkg/component-base/labels/requirements.go:156-162 | the set of values contains exactly the values `hasValue` accepts |
| LabelRequirements.CopyStrValues | pkg/component-base/labels/requirements.go:165-173 | a nil slice stays nil; otherwise a fresh array with the same contents |
| LabelRequirements.SafeSort | pkg/component-base/labels/requirements.go:234-242 | the result is sorted and a permutation of the input, and an input already sorted is returned as it is |
| LabelRequirements.SafeSortCanonical | pkg/component-base/labels/requirements.go:218-224 | two arrangements of the same values render their value list identically |
| LabelRequirements.RequirementString | pkg/component-base/labels/requirements.go:188-231 | `!key` for does-not-exist and the bare key for exists; otherwise the key, the operator's spelling (`=`, `==`, `!=`, `>`, `<`, none for an unrecognised operator) and the values, or `key in (values)` / `key notin (values)`; the values are the single value, or several sorted and comma-joined |
| LabelRequirements.ValuesTextSplits | pkg/component-base/labels/requirements.go:218-225 | several comma-free values written by `String` split back at the commas into the same values in ascending order |
| LabelRequirements.RequirementStringCanonical | pkg/component-base/labels/requirements.go:188-231 | requirements with the same key and operator and the same values in any order render identically |
| StringSets.Insert | pkg/component-base/labels/selector.go:520 | inserting into a sorted duplicate-free list keeps it so, adds exactly the new value and is a no-op for a present one |
| Selectors.ByKeyIsTotal | pkg/component-base/labels/selector.go:140-144 | ordering requirements by key is a total preorder, so sorting by it is well defined |
| Selectors.SortByKey | pkg/component-base/labels/selector.go:612 | the requirements come out sorted by key and are a permutation of the input |
| Selectors.Everything | pkg/component-base/labels/selector.go:41-43 | the selector with no requirements: it matches every label map and renders as "" |
| Selectors.AllMatch | pkg/component-base/labels/selector.go:69-76 | true exactly when every requirement matches the labels |
| Selectors.Matches | pkg/component-base/labels/selector.go:69-76 | `Nothing` matches no labels; a requirement list matches when every requirement does |
| Selectors.Empty | pkg/component-base/labels/selector.go:78-83 | true exactly for the selector with no requirements (`Everything`) |
| Selectors.EmptyMatchesEverything | pkg/component-base/labels/selector.go:41-60 | `Everything` matches every label map; `Nothing` matches none and is not empty |
| Selectors.Requirements | pkg/component-base/labels/selector.go:105-107 | the requirement list and true for a requirement selector; nothing and false for `Nothing` |
| Selectors.Add | pkg/component-base/labels/selector.go:93-103 | `Nothing` stays `Nothing`; otherwise the old and new requirements together, sorted by key |
| Selectors.AddMatches | pkg/component-base/labels/selector.go:93-103 | the extended selector matches exactly the labels that the old one and all the added requirements match |
| Selectors.ExactMatchIn | pkg/component-base/labels/selector.go:113-126 | found exactly when the first requirement on the key is an `=`/`==`/one-value `in`, whose value it returns; "" otherwise |
| Selectors.RequiresExactMatch | pkg/component-base/labels/selector.go:113-126 | `Nothing` requires nothing; otherwise the first requirement on the key decides |
| Selectors.ExactMatchIsNecessary | pkg/component-base/labels/selector.go:113-126 | when an exact match is reported, every label map the selector matches holds that value under the key |
| Selectors.RequirementStrings | pkg/component-base/labels/selector.go:85-91 | one string per requirement, each that requirement's `String()` |
| Selectors.SelectorString | pkg/component-base/labels/selector.go:85-91 | "" for `Nothing` and for no requirements; one requirement renders as its own string; with more, the first requirement's string and a comma come first |
| Selectors.SelectorStringAppend | pkg/component-base/labels/selector.go:85-91 | a further requirement adds a comma and its own string to the selector's string |
| Selectors.BuiltFromSetMatches | pkg/component-base/labels/selector.go:645-659 | a selector built from a label set matches exactly the label maps that contain every entry of the set |
| Selectors.SelectorFromValidatedSet | pkg/component-base/labels/selector.go:645-659 | one `=` requirement per entry, sorted by key; an empty set gives `Everything` |
| Selectors.ValidatedSelectorFromSet | pkg/component-base/labels/selector.go:625-640 | succeeds iff `NewRequirement` accepts every entry, and then builds the selector from the set; a failure is the error of some rejected entry |
| SelectorLexer.LiteralToken | pkg/component-base/labels/selector.go:182-194 | a registered literal never maps to the error or end-of-string token |
| SelectorLexer.LongLiteralIsNotin | pkg/component-base/labels/selector.go:182-194 | every registered literal has at least one character, and the only one longer than two is `notin` |
| SelectorLexer.IdentifierRun | pkg/component-base/labels/selector.go:242-261 | the identifier is the longest run of characters that are not NUL, special or blank; the cursor passes it and a NUL that ends it |
| SelectorLexer.ScanIDOrKeywordAt | pkg/component-base/labels/selector.go:242-261 | the literal is the identifier run; it is the `in`/`notin` keyword token exactly when it spells that word, an identifier otherwise |
| SelectorLexer.SpecialRunLength | pkg/component-base/labels/selector.go:265-290 | the length of the run of special symbols at the cursor |
| SelectorLexer.ScanSpecialSymbolSteps | pkg/component-base/labels/selector.go:265-290 | from a special symbol the scan keeps the two-character literal when one starts there and the one-character literal otherwise, and consumes a NUL that follows it |
| SelectorLexer.ScanSpecialSymbolLongest | pkg/component-base/labels/selector.go:265-290 | the operator scanned is the longest registered literal that starts the run of special symbols; scanning one never fails |
| SelectorLexer.FirstNonBlank | pkg/component-base/labels/selector.go:294-301 | the first non-blank position at or after the cursor |
| SelectorLexer.SkipWhiteSpacesAt | pkg/component-base/labels/selector.go:294-301 | a non-blank character is kept; otherwise the first non-blank character after the cursor, or NUL at the end |
| SelectorLexer.LexAt | pkg/component-base/labels/selector.go:304-315 | `Lex` never yields the error token; it advances the cursor unless it reports the end, and at the end of input it reports the end |
| SelectorLexer.LexAtEnd | pkg/component-base/labels/selector.go:304-315 | `Lex` reports the end exactly when only blanks remain or the next non-blank is NUL |
| SelectorLexer.LexAtSpecial | pkg/component-base/labels/selector.go:304-315 | a special symbol after the blanks is scanned as an operator |
| SelectorLexer.LexAtIdentifier | pkg/component-base/labels/selector.go:304-315 | any other character after the blanks starts an identifier or keyword |
| SelectorLexer.ScanFrom | pkg/component-base/labels/selector.go:364-372 | the scanned tokens end in exactly one end-of-string token and contain no error token |
| SelectorLexer.Lexer.constructor | pkg/component-base/labels/selector.go:605 | a lexer over the selector text with the cursor at 0 |
| SelectorLexer.Lexer.Read | pkg/component-base/labels/selector.go:227-234 | reads the character at the cursor and advances it, or yields NUL at the end without moving |
| SelectorLexer.Lexer.Unread | pkg/component-base/labels/selector.go:237-239 | moves the cursor one back |
| SelectorLexer.Lexer.ScanIDOrKeyword | pkg/component-base/labels/selector.go:242-261 | the read/unread loop yields the token and cursor that `ScanIDOrKeywordAt` specifies |
| SelectorLexer.Lexer.ScanSpecialSymbol | pkg/component-base/labels/selector.go:265-290 | the loop yields the token and cursor that `ScanSpecialSymbolAt` specifies |
| SelectorLexer.Lexer.SkipWhiteSpaces | pkg/component-base/labels/selector.go:294-301 | the loop yields the character and cursor that `SkipWhiteSpacesAt` specifies |
| SelectorLexer.Lexer.Lex | pkg/component-base/labels/selector.go:304-315 | yields the token and cursor that `LexAt` specifies |
| SelectorParser.TokenOperator | pkg/component-base/labels/selector.go:460-482 | each operator recognised is the one its token spells |
| SelectorParser.KeyAndInferOperatorAt | pkg/component-base/labels/selector.go:437-457 | on success the key is valid and was an identifier; `!` before it gives does-not-exist, a key followed by the end or a comma gives exists, and otherwise no operator is inferred yet |
| SelectorParser.OperatorAt | pkg/component-base/labels/selector.go:460-482 | succeeds exactly on the seven operator tokens, consuming one; any other token is reported as unexpected |
| SelectorParser.ExactValueAt | pkg/component-base/labels/selector.go:546-559 | the end or a comma means the empty value, which is not consumed; otherwise only an identifier (keywords included) is accepted |
| SelectorParser.IdentifiersListAt | pkg/component-base/labels/selector.go:510-543 | on success the list stops in front of `)`, is a non-empty sorted set holding the values gathered before it, and holds "" when a comma precedes the `)` |
| SelectorParser.ListStepIdentifier | pkg/component-base/labels/selector.go:515-523 | an identifier is added; a comma after it continues the loop, `)` ends it, anything else is an error |
| SelectorParser.ListStepComma | pkg/component-base/labels/selector.go:524-535 | a comma adds "" when it starts the list, before `)` or before another comma (which it consumes) |
| SelectorParser.ValuesAt | pkg/component-base/labels/selector.go:485-507 | on success `(`, a non-empty sorted set of values and `)` were consumed |
| SelectorParser.EmptyParens | pkg/component-base/labels/selector.go:501-503 | `()` is the set holding only the empty value |
| SelectorParser.EmptyValueInList | pkg/component-base/labels/selector.go:524-535 | a comma at the start, at the end or doubled inside the list puts "" in the value set |
| SelectorParser.DoubledCommaGivesEmpty | pkg/component-base/labels/selector.go:531-534 | a doubled comma inside the list puts "" in the value set |
| SelectorParser.RequirementAt | pkg/component-base/labels/selector.go:409-432 | a parsed requirement is one `NewRequirement` accepts, does not end in the separating comma, and has a sorted duplicate-free value set for in/notin |
| SelectorParser.OperatorRequirementAt | pkg/component-base/labels/selector.go:418-432 | after a key with no inferred operator: the operator, its operands and `NewRequirement`'s verdict |
| SelectorParser.OperandsAt | pkg/component-base/labels/selector.go:422-429 | in/notin read a value set; the other operators read one exact value |
| SelectorParser.ExistsInferred | pkg/component-base/labels/selector.go:437-457 | a valid key followed by the end or a comma is the requirement that the key exists |
| SelectorParser.DoesNotExistParsed | pkg/component-base/labels/selector.go:409-432 | `!` and a valid key is the requirement that the key is absent |
| SelectorParser.LoopAtAccepted | pkg/component-base/labels/selector.go:376-407 | the loop only appends requirements, and every one it appends is accepted by `NewRequirement` |
| SelectorParser.TrailingCommaRejected | pkg/component-base/labels/selector.go:376-407 | input whose last token is a comma never parses |
| SelectorParser.LoopAtRejects | pkg/component-base/labels/selector.go:376-407 | a requirement cannot start with any token other than an identifier or `!`, and an error inside a requirement is reported as "unable to parse requirement" |
| SelectorRoundTrip.WordAfterEquals | pkg/component-base/labels/selector.go:546-559 | any word after `=`, `in` and `notin` included, is read as the value: `key=w` parses to the requirement that `key` equals `w` |
| SelectorParser.InAsValue | pkg/component-base/labels/selector.go:338-347 | in the values context `in` is an identifier: `x in (in)` is the requirement that `x` is in {"in"} |
| SelectorParser.ParsedRequirements | pkg/component-base/labels/selector.go:604-612 | parsed requirements come out sorted by key and each is accepted by `NewRequirement` |
| SelectorParser.ParsedSelector | pkg/component-base/labels/selector.go:592-598 | `Parse` succeeds exactly when parsing the requirements does, and returns them as the selector |
| SelectorParser.ParseEmptyString | pkg/component-base/labels/selector.go:592-598 | the empty string parses to `Everything` |
| SelectorParser.LoopThroughComma | pkg/component-base/labels/selector.go:376-407 | a requirement followed by a comma and the start of another is appended and the loop goes on after the comma |
| SelectorParser.LoopThroughEnd | pkg/component-base/labels/selector.go:376-407 | a requirement followed by the end is appended and the loop returns the requirements gathered |
| SelectorParser.ParsedFromLoop | pkg/component-base/labels/selector.go:592-612 | when the loop over the scanned text yields some requirements, `Parse` returns them sorted by key |
| SelectorRoundTrip.ConcatItems | pkg/component-base/labels/selector.go:85-91 | the characters of the tokens of printed requirements spell the selector's `String()` |
| SelectorRoundTrip.ScanRendered | pkg/component-base/labels/selector.go:364-372 | scanning the `String()` of plain `key=value` requirements yields their tokens, comma-separated, then the end token |
| SelectorRoundTrip.ParseItems | pkg/component-base/labels/selector.go:376-407 | the requirement loop reads the tokens of printed accepted requirements back as those requirements, in order |
| SelectorRoundTrip.ParsePrinted | pkg/component-base/labels/selector.go:85-91 | `Parse` of the `String()` of plain accepted requirements yields them, sorted by key |
| SelectorRoundTrip.ParseSelectorString | pkg/component-base/labels/selector.go:85-91 | the `String()` of a selector built from a label set of single-word keys and values parses back to a selector built from the same set, which matches exactly the same label maps |
| SelectorParser.Parser.constructor | pkg/component-base/labels/selector.go:605 | a parser with a fresh lexer at the start of the text and nothing scanned |
| SelectorParser.Parser.Lookahead | pkg/component-base/labels/selector.go:338-347 | the token at the position, read in the given context, without moving |
| SelectorParser.Parser.Consume | pkg/component-base/labels/selector.go:350-360 | the token at the position, read in the given context, and the position advances by one |
| SelectorParser.Parser.Scan | pkg/component-base/labels/selector.go:364-372 | appends the tokens lexed from the cursor up to and including the end token |
| SelectorParser.Parser.ParseKeyAndInferOperator | pkg/component-base/labels/selector.go:437-457 | result and new position are those `KeyAndInferOperatorAt` specifies |
| SelectorParser.Parser.ParseOperator | pkg/component-base/labels/selector.go:460-482 | result and new position are those `OperatorAt` specifies |
| SelectorParser.Parser.ParseValues | pkg/component-base/labels/selector.go:485-507 | result and new position are those `ValuesAt` specifies |
| SelectorParser.Parser.ParseIdentifiersList | pkg/component-base/labels/selector.go:510-543 | result and new position are those `IdentifiersListAt` specifies |
| SelectorParser.Parser.ParseExactValue | pkg/component-base/labels/selector.go:546-559 | result and new position are those `ExactValueAt` specifies |
| SelectorParser.Parser.ParseRequirement | pkg/component-base/labels/selector.go:409-432 | result and new position are those `RequirementAt` specifies |
| SelectorParser.Parser.Parse | pkg/component-base/labels/selector.go:376-407 | scans the whole text, then runs the requirement loop over the tokens |
| SelectorParser.Parse | pkg/component-base/labels/selector.go:592-612 | returns exactly `ParsedSelector` of the text |
| IntSets.IntSet.constructor | pkg/component-base/util/sets/int32.go:12-16 | a set holding exactly the given items |
| IntSets.IntSet.Insert | pkg/component-base/util/sets/int32.go:31-36 | adds exactly the items, in place, and returns the same set |
| IntSets.IntSet.Delete | pkg/component-base/util/sets/int32.go:39-44 | removes exactly the items, in place, and returns the same set |
| IntSets.IntSet.Len | pkg/component-base/util/sets/int32.go:181-183 | the number of elements, 0 exactly for the empty set |
| IntSets.IntSet.Has | pkg/component-base/util/sets/int32.go:47-50 | true exactly when the item is a member |
| IntSets.IntSet.HasAll | pkg/component-base/util/sets/int32.go:53-60 | true iff every item is a member (so for no items) |
| IntSets.IntSet.HasAny | pkg/component-base/util/sets/int32.go:63-70 | true iff some item is a member (so never for no items) |
| IntSets.IntSet.Difference | pkg/component-base/util/sets/int32.go:78-86 | a new set holding the elements of the receiver not in the argument |
| IntSets.IntSet.Union | pkg/component-base/util/sets/int32.go:94-103 | a new set holding the elements of both |
| IntSets.IntSet.Intersection | pkg/component-base/util/sets/int32.go:110-126 | a new set holding the common elements, whichever set is walked |
| IntSets.Walk | pkg/component-base/util/sets/int32.go:119-124 | walking one set and keeping what the other holds gives their intersection |
| IntSets.InsertEach | pkg/component-base/util/sets/int32.go:98-101 | adds every key of the other set to the target |
| IntSets.IntSet.IsSuperset | pkg/component-base/util/sets/int32.go:129-136 | true iff every element of the argument is in the receiver |
| IntSets.IntSet.Equal | pkg/component-base/util/sets/int32.go:141-143 | true iff the two sets hold the same elements |
| IntSets.SubsetOfSameSize | pkg/component-base/util/sets/int32.go:141-143 | a subset of the same size is the same set, which is why the length test plus `IsSuperset` decides equality |
| IntSets.IntSet.List | pkg/component-base/util/sets/int32.go:152-159 | the elements, each once, in strictly ascending order |
| IntSets.SortedMembersAscend | pkg/component-base/util/sets/int32.go:152-159 | a sorted listing of a set's members is strictly ascending |
| IntSets.IntSet.UnsortedList | pkg/component-base/util/sets/int32.go:162-168 | the elements, each once, in some order |
| IntSets.IntSet.PopAny | pkg/component-base/util/sets/int32.go:171-178 | from a non-empty set removes and returns one element; from an empty set returns the zero value and false and changes nothing |
| GoStrings.SortStrings | pkg/component-base/cli/flag/map_string_bool.go:60 | `sort.Strings`: sorted and a permutation of the input |
| GoStrings.JoinSplit | pkg/component-base/cli/flag/map_string_bool.go:33 | joining the pieces of a split with the separator gives back the text |
| GoStrings.SplitJoin | pkg/component-base/cli/flag/namedcertkey_flag.go:96 | splitting a join of separator-free pieces gives back the pieces |
| GoStrings.Cut | pkg/component-base/cli/flag/map_string_bool.go:37 | `SplitN(s, sep, 2)`: none exactly when the separator is absent; otherwise the text before its first occurrence and the rest |
| GoStrings.TrimSpace | pkg/component-base/cli/flag/map_string_bool.go:41-42 | the result is no longer than the input and neither starts nor ends with blank space |
| GoStrings.TrimSpaceIdempotent | pkg/component-base/cli/flag/map_string_bool.go:41-42 | trimming twice is trimming once |
| GoStrings.ParseBool | pkg/component-base/cli/flag/map_string_bool.go:43 | true for exactly the six true spellings, false for exactly the six false spellings, none otherwise |
| GoStrings.ParseFormatBool | pkg/component-base/cli/flag/map_string_bool.go:58 | `%t` formatting reads back as the same boolean |
| GoStrings.ParseInt64 | pkg/component-base/labels/requirements.go:60 | a parsed value lies in the int64 range and the text starts with a sign or digit |
| GoStrings.DecimalValue | pkg/component-base/labels/requirements.go:107 | a value exactly for a non-empty run of decimal digits, and never negative |
| GoStrings.ParseInt64Accepts | pkg/component-base/labels/requirements.go:107 | `strconv.ParseInt(s, 10, 64)` succeeds exactly when the text is an optional sign and a non-empty run of digits whose signed value lies in the int64 range, and then yields that value |
| GoStrings.ParseFormatInt64 | pkg/component-base/labels/requirements.go:122 | every int64, formatted in decimal, parses back to itself |
| GoStrings.FormatDecimalValue | pkg/component-base/labels/requirements.go:122 | digits without a leading zero are the decimal formatting of their own value |
| KeyValueText.RenderPairs | pkg/component-base/cli/flag/map_string_string.go:71-76 | the map loop collects `k=v` pairs and yields them sorted and comma-joined, whatever the visiting order |
| KeyValueText.RenderedIsEmpty | pkg/component-base/cli/flag/map_string_string.go:67-77 | the rendering is "" exactly for the empty map |
| KeyValueText.ParsePair | pkg/component-base/cli/flag/map_string_bool.go:37-42 | none exactly when the piece has no `=`; otherwise a key without `=` and a value, both trimmed |
| KeyValueText.ParseRenderedPair | pkg/component-base/cli/flag/map_string_bool.go:37-42 | `k=v` with trimmed `k` and `v` and no `=` in `k` parses back to `(k, v)` |
| KeyValueText.ApplyPiece | pkg/component-base/cli/flag/map_string_bool.go:34-47 | a piece is refused exactly when it is not empty and lacks `=` or an acceptable value; an accepted non-empty piece stores its value under its key, anything else leaves the map alone |
| KeyValueText.ApplyPieces | pkg/component-base/cli/flag/map_string_bool.go:33-49 | no key is ever removed |
| KeyValueText.ErrorPersists | pkg/component-base/cli/flag/map_string_bool.go:38-46 | the loop stops at the first refused piece: the pieces after it change nothing |
| KeyValueText.ApplyPiecesSucceeds | pkg/component-base/cli/flag/map_string_bool.go:33-49 | the loop succeeds exactly when every piece is acceptable |
| KeyValueText.ApplyRendered | pkg/component-base/cli/flag/map_string_string.go:67-77 | reading back a map's `String()` over an existing map stores exactly that map's entries on top |
| KeyValueText.ParseRendered | pkg/component-base/cli/flag/map_string_string.go:67-77 | reading back a map's `String()` into an empty map gives the same map |
| MapFlags.MapVar.constructor | pkg/component-base/cli/flag/map_string_string.go:14-18 | the map variable a flag points at |
| MapFlags.ApplyWhole | pkg/component-base/cli/flag/map_string_string.go:56-63 | the whole value as one pair: succeeds exactly when it has `=`, then stores the trimmed value under the trimmed key |
| MapFlags.SetStringAsWritten | pkg/component-base/cli/flag/map_string_string.go:30-65 | on success the value had `=` and the key before its first `=` holds everything after it |
| MapFlags.SetStringWholeValueOverrides | pkg/component-base/cli/flag/map_string_string.go:40-63 | for `k1=v1,k2=v2` the code as written stores `v1,k2=v2` under `k1`, where the documented behaviour stores `v1` under `k1` and `v2` under `k2` |
| MapFlags.SetStringIntended | pkg/component-base/cli/flag/map_string_string.go:9-13 | the documented behaviour: with NoSplit the value is one pair, valid exactly when it has `=`; without it the comma-separated pairs; no key is removed |
| MapFlags.SetStringIntendedRoundTrip | pkg/component-base/cli/flag/map_string_string.go:67-77 | with the documented behaviour, setting the flag to a map's `String()` stores that map's entries |
| MapFlags.MapStringString.constructor | pkg/component-base/cli/flag/map_string_string.go:20-28 | a flag on the given map, split or not, not yet initialised |
| MapFlags.MapStringString.Set | pkg/component-base/cli/flag/map_string_string.go:30-65 | a nil target is an error; otherwise the map is cleared on first use and then holds what `SetStringAsWritten` gives, with its error |
| MapFlags.MapStringString.StorePieces | pkg/component-base/cli/flag/map_string_string.go:40-54 | the loop leaves the map and the error that `ApplyPieces` gives |
| MapFlags.MapStringString.String | pkg/component-base/cli/flag/map_string_string.go:67-77 | "" without a target; otherwise the sorted comma-joined `k=v` pairs of the map |
| MapFlags.MapStringString.Empty | pkg/component-base/cli/flag/map_string_string.go:83-85 | the flag is empty exactly when it renders as "" |
| MapFlags.BoolTextRoundTrips | pkg/component-base/cli/flag/map_string_bool.go:58 | a rendered boolean has no comma, is trimmed and parses back to itself |
| MapFlags.SetBoolRoundTrip | pkg/component-base/cli/flag/map_string_bool.go:23-62 | setting the flag to a map's `String()` stores that map's entries |
| MapFlags.MapStringBool.constructor | pkg/component-base/cli/flag/map_string_bool.go:19-21 | a flag on the given map, not yet initialised |
| MapFlags.MapStringBool.Set | pkg/component-base/cli/flag/map_string_bool.go:23-50 | a nil target is an error; otherwise the map is cleared on first use and each comma-separated pair is stored until the first refused one |
| MapFlags.MapStringBool.StorePieces | pkg/component-base/cli/flag/map_string_bool.go:33-48 | the loop leaves the map and the error that `ApplyPieces` gives |
| MapFlags.MapStringBool.StorePiece | pkg/component-base/cli/flag/map_string_bool.go:34-47 | one round of the loop does what `ApplyPiece` specifies |
| MapFlags.MapStringBool.String | pkg/component-base/cli/flag/map_string_bool.go:52-62 | "" without a target; otherwise the sorted comma-joined `k=true/false` pairs |
| MapFlags.MapStringBool.Empty | pkg/component-base/cli/flag/map_string_bool.go:68-70 | the flag is empty exactly when it renders as "" |
| CertKeyFlags.TrimEach | pkg/component-base/cli/flag/namedcertkey_flag.go:35-37 | each name trimmed, in order |
| CertKeyFlags.NamesPart | pkg/component-base/cli/flag/namedcertkey_flag.go:26-37 | no names without a `:`; otherwise at least one name, each trimmed |
| CertKeyFlags.Render | pkg/component-base/cli/flag/namedcertkey_flag.go:17-23 | the text starts with `certFile,keyFile`, and is exactly that when there are no names |
| CertKeyFlags.KeyCertPart | pkg/component-base/cli/flag/namedcertkey_flag.go:26-41 | the cert/key text is trimmed and holds no `:` |
| CertKeyFlags.ParseCertKey | pkg/component-base/cli/flag/namedcertkey_flag.go:25-49 | fails with the empty-names error exactly when there is a `:` with only blanks after it; otherwise succeeds exactly when the cert/key text splits at commas into two pieces; a result holds the trimmed names and the two trimmed pieces as comma-free file names |
| CertKeyFlags.NamesRoundTrip | pkg/component-base/cli/flag/namedcertkey_flag.go:17-37 | trimmed comma-free names, joined and split again, give back the names |
| CertKeyFlags.FilesRoundTrip | pkg/component-base/cli/flag/namedcertkey_flag.go:17-18 | the rendered `cert,key` splits back into the two file names |
| CertKeyFlags.ParseRender | pkg/component-base/cli/flag/namedcertkey_flag.go:17-49 | `Set` of a `NamedCertKey`'s `String()` gives back the same value |
| CertKeyFlags.RenderAll | pkg/component-base/cli/flag/namedcertkey_flag.go:92-95 | the `String()` of each element, in order |
| CertKeyFlags.ListRoundTrip | pkg/component-base/cli/flag/namedcertkey_flag.go:91-97 | the text between the brackets splits at `;` into parts that each parse back into their element |
| CertKeyFlags.NamedCertKey.constructor | pkg/component-base/cli/flag/namedcertkey_flag.go:73 | the zero value: no names and empty file names |
| CertKeyFlags.NamedCertKey.String | pkg/component-base/cli/flag/namedcertkey_flag.go:17-23 | for a value whose text survives the trip, `Set` of the string gives back the same value |
| CertKeyFlags.NamedCertKey.Set | pkg/component-base/cli/flag/namedcertkey_flag.go:25-49 | on success the fields hold the parsed value; empty names change nothing; a bad file pair leaves the new names and the old files |
| CertKeyFlags.NamedCertKey.StoreNames | pkg/component-base/cli/flag/namedcertkey_flag.go:34-37 | the names become the trimmed comma-separated parts; the files are untouched |
| CertKeyFlags.CertKeyList.constructor | pkg/component-base/cli/flag/namedcertkey_flag.go:57-60 | the slice the array flag points at |
| CertKeyFlags.NamedCertKeyArray.constructor | pkg/component-base/cli/flag/namedcertkey_flag.go:66-70 | an array flag on the given slice, not yet changed |
| CertKeyFlags.NamedCertKeyArray.Set | pkg/component-base/cli/flag/namedcertkey_flag.go:72-85 | a refused value changes nothing; the first accepted value replaces the slice's contents, later ones are appended |
| CertKeyFlags.NamedCertKeyArray.String | pkg/component-base/cli/flag/namedcertkey_flag.go:91-97 | the elements' strings joined by `;` in brackets |
| Fields.Has | pkg/component-base/fields/fields.go:17-20 | true exactly when the field is in the set |
| Fields.Get | pkg/component-base/fields/fields.go:22-24 | the stored value, or "" for a missing field; a non-empty result means the field is present |
| Fields.String | pkg/component-base/fields/fields.go:26-35 | the sorted comma-joined `field=value` pairs, whatever the map's visiting order |
| Fields.StringIsEmpty | pkg/component-base/fields/fields.go:26-35 | the string is "" exactly for the empty set |
| Fields.StringDeterminesSet | pkg/component-base/fields/fields.go:26-35 | two sets whose fields and values cannot be confused with the separators render alike only when they are equal |
| ErrorCodes.HTTPStatus | pkg/errors/code.go:39-44 | never 0: the coder's own status, or 500 when it has none |
| ErrorCodes.CodeChain | pkg/errors/code.go:109-123 | the codes along the chain of causes, starting with the outermost |
| ErrorCodes.IsCode | pkg/errors/code.go:109-123 | true only for a coded error, and always when the outermost code is the one asked for |
| ErrorCodes.IsCodeOnChain | pkg/errors/code.go:109-123 | `IsCode` holds exactly for the codes on the chain of wrapped causes |
| ErrorCodes.Registry.constructor | pkg/errors/code.go:59 | the empty registry |
| ErrorCodes.Registry.Register | pkg/errors/code.go:64-72 | code 0 panics and changes nothing; any other code is stored, replacing an earlier one |
| ErrorCodes.Registry.MustRegister | pkg/errors/code.go:76-89 | code 0 or an already registered code panics and changes nothing; otherwise the coder is stored |
| ErrorCodes.Registry.ParseCoder | pkg/errors/code.go:94-106 | nil exactly for a nil error; a coded error whose code is registered maps to that code's coder; an error without a registered code maps to the unknown coder; a coder found is registered under a nonzero code that `IsCode` confirms |

## Left out

- **Requirement accessors and deep copies.**
  - `Requirement.Key`, `Operator`, `DeepCopy` and the selectors' `DeepCopySelector` are left out. They are field reads or a
    nil check around `DeepCopyInto`, which `LabelRequirements.CopyStrValues` models.
  - The `Requirement` datatype is a value, so copies cannot alias.
- **The `sets.String` type and the validators.** The `sets.String` source file is not
  part of this model, and neither is validation/validation.go.
  - `sets.String` is a sorted duplicate-free `seq<string>` (`StringSets`).
  - `IsQualifiedName` and `IsValidLabelValue` are arbitrary predicates passed in as
    `Validators`, so nothing is proved that depends on their rules.
- **Error messages.** Error texts are datatype values. The `%q`-formatted strings and the
  text that `strconv` errors carry are not reproduced, apart from the parser's own
  messages (`SelectorParser.ErrorMessage`).
- **Sorting.**
  - `sort.Sort(ByKey)` is not stable in Go. The model sorts with a stable insertion sort.
  - The contracts promise only "sorted by key and a permutation", which is all Go
    guarantees.
  - When two requirements share a key, their order in Go can differ from the model's.
- **`SelectorFromSet` and `ParseToRequirements`.**
  - `SelectorFromSet` only delegates to `SelectorFromValidatedSet`, so it has no member of
    its own.
  - `ParseToRequirements` returns the parser's requirements, as
    `SelectorParser.ParsedRequirements` states.
- **Nil versus empty.** A nil map or slice and an empty one are the same value in the
  model, except for the nil target of a map flag, which the model keeps.
- **Go map aliasing.**
  - The maps behind `MapVar` and `IntSet` are Dafny values held by one object.
  - Two Go set values that share a map are one `IntSet` object in the model.
  - A Go map that a flag and another variable both reference is one `MapVar`.
- **The `*KeySet` constructors.** `Int32KeySet`, `Int64KeySet` and `ByteKeySet` use
  reflection over an arbitrary map and are left out.
- **Integer widths.**
  - `IntSet` elements are integers checked to lie in the range of their `Kind`.
  - Go's conversions never produce a value outside that range, so nothing wraps.
- **Bytes versus characters.** Go strings are bytes, and the lexer reads them one byte at
  a time (selector.go:227-234). The model's strings are sequences of Unicode characters.
  For valid UTF-8 the behaviour is the same: every delimiter is ASCII, and UTF-8 byte order
  is code-point order. Input that is not valid UTF-8 cannot be expressed in the model.
- **The `Type()` methods.** They return constant names and are left out.
- **Nil receivers and nil pointers.** A nil `*MapStringString` or `*MapStringBool`
  receiver, which `String` answers with "", is not modelled apart from a nil target, which
  `String` answers the same way. The panics on nil pointers are dropped, member by member:
- MapFlags.MapStringString.Empty: requires a target. In Go, `Empty` on a flag with a nil
  map pointer panics; the model leaves that panic out.
- MapFlags.MapStringBool.Empty: requires a target, for the same reason.
- CertKeyFlags.NamedCertKeyArray.constructor: takes a `CertKeyList` object, which cannot
  be null. Go accepts `NewNamedCertKeyArray(nil)`, and `Set` of an accepted value and
  `String` then panic; the model leaves those panics out.
- **Panics.** `Register` and `MustRegister` panic. The model returns the panic as a value,
  and in that case the registry is unchanged.
- **Other error types.**
  - `codeMux` serialises access to the registry; concurrency is not modelled.
  - `Coder` implementations other than `defaultCoder` are left out.
  - `withCode` and its constructors are defined in errors.go, which is not part of this
    model. Errors are the `ErrorCodes.Error` datatype: a coded error with its cause, or
    any other error.
- **Helper methods.** `Lexer` and `Parser` keep their Go methods. The helper methods
  below structure a loop for the proof and have no Go counterpart of their own:
  - `SelectorParser.Parser.ListRound`, `AfterRequirement` and `ParseScanned`;
  - `IntSets.InsertEach`;
  - `MapFlags.MapStringString.StorePieces` and `MapFlags.MapStringBool.StorePiece`;
  - `CertKeyFlags.NamedCertKey.StoreNames`.
- **The closing-parenthesis check in `parseValues`.** The list loop returns only in front
  of `)`, so the check can never fail. The model omits the unreachable error.
- **Label and field selectors beyond the core.** `fields.Set.AsSelector`, the field
  selector parser and the JSON, version and term helpers are outside the modelled core.
- **`MapFlags.MapStringString.Set`** follows the code as written (see Findings). The
  documented behaviour is `MapFlags.SetStringIntended`.

## Findings

| source | as written | input that shows it | evidently intended | confidence | as-written member | corrected member |
|---|---|---|---|---|---|---|
| pkg/component-base/cli/flag/map_string_string.go:56-63 | after the comma-split loop, `Set` always parses the whole value once more as a single `k=v` pair, even when NoSplit is false, so the first key is overwritten with everything after its first `=`; an empty value is refused as a malformed pair | `--flag "a=foo,b=bar"` leaves `a` holding `foo,b=bar` instead of `foo` | with NoSplit unset, `Set` returns after the loop, and the comma-separated pairs are the result; as the type's own comment describes | not executed | MapFlags.SetStringWholeValueOverrides | MapFlags.SetStringIntendedRoundTrip |
