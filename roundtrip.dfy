/** The round trip between printing and parsing selectors: the string of a selector built
    from a label set reads back, through `Parse`, as the selector built from the same set,
    provided every key and value is a single word to the lexer. */
module SelectorRoundTrip {
  import opened Wrappers
  import opened GoStrings
  import opened Selection
  import opened SelectorLexer
  import opened SelectorParser
  import opened Selectors
  import LabelRequirements
  import Enumeration

  type Requirement = LabelRequirements.Requirement

  // ------------------------------------------------------------------ words

  /** A character the lexer keeps inside an identifier. */
  predicate WordChar(c: char) {
    !EndsIdentifier(c)
  }

  predicate WordChars(w: string) {
    forall i :: 0 <= i < |w| ==> WordChar(w[i])
  }

  /** The token the lexer yields for a word: `in` and `notin` are keywords, anything else
      an identifier. */
  function WordItem(w: string): ScannedItem {
    ScannedItem(if w == "in" then InToken else if w == "notin" then NotInToken else IdentifierToken, w)
  }

  /** A `key=value` requirement whose key and value each lex as one word (the value may
      be empty). */
  predicate Plain(r: Requirement) {
    && r.operator == Equals && |r.strValues| == 1
    && |r.key| > 0 && WordChars(r.key) && WordChars(r.strValues[0])
  }

  predicate AllPlain(rs: seq<Requirement>) {
    forall i :: 0 <= i < |rs| ==> Plain(rs[i])
  }

  // ------------------------------------------------------------------ tokens

  const EqualsItem := ScannedItem(EqualsToken, "=")
  const CommaItem := ScannedItem(CommaToken, ",")
  const EndItem := ScannedItem(EndOfStringToken, "")

  /** The tokens of one `key=value`: the key, `=`, and the value unless it is empty. */
  function PairItems(r: Requirement): (items: seq<ScannedItem>)
    requires Plain(r)
    ensures |items| == if r.strValues[0] == "" then 2 else 3
  {
    [WordItem(r.key), EqualsItem] + (if r.strValues[0] == "" then [] else [WordItem(r.strValues[0])])
  }

  /** The tokens of the printed requirements: the pairs separated by commas, then the end. */
  function Items(rs: seq<Requirement>): (items: seq<ScannedItem>)
    requires |rs| > 0 && AllPlain(rs)
    ensures |items| > 0 && items[0] == WordItem(rs[0].key)
  {
    PairItems(rs[0]) + if |rs| == 1 then [EndItem] else [CommaItem] + Items(rs[1..])
  }

  /** The characters the tokens were read from, one after another. */
  function Concat(items: seq<ScannedItem>): string {
    if items == [] then "" else items[0].literal + Concat(items[1..])
  }

  lemma {:induction false} ConcatAppend(xs: seq<ScannedItem>, ys: seq<ScannedItem>)
    ensures Concat(xs + ys) == Concat(xs) + Concat(ys)
  {
    if xs == [] {
      assert xs + ys == ys;
    } else {
      assert (xs + ys)[1..] == xs[1..] + ys;
      ConcatAppend(xs[1..], ys);
    }
  }

  lemma {:induction false} AllPlainTail(rs: seq<Requirement>)
    requires |rs| > 0 && AllPlain(rs)
    ensures AllPlain(rs[1..])
  {
    forall i | 0 <= i < |rs| - 1 ensures Plain(rs[1..][i]) {
      assert rs[1..][i] == rs[i + 1];
    }
  }

  lemma {:induction false} ConcatPair(r: Requirement)
    requires Plain(r)
    ensures Concat(PairItems(r)) == LabelRequirements.RequirementString(r)
  {
    var k, v := r.key, r.strValues[0];
    assert LabelRequirements.ValuesText(r.strValues) == v;
    ConcatAppend([WordItem(k)], [EqualsItem]);
    if v != "" {
      ConcatAppend([WordItem(k), EqualsItem], [WordItem(v)]);
    }
  }

  /** The tokens' characters are the printed requirements. */
  lemma {:induction false} ConcatItems(rs: seq<Requirement>)
    requires |rs| > 0 && AllPlain(rs)
    ensures Concat(Items(rs)) == Join(RequirementStrings(rs), ",")
    decreases |rs|
  {
    var strs := RequirementStrings(rs);
    ConcatPair(rs[0]);
    if |rs| == 1 {
      ConcatAppend(PairItems(rs[0]), [EndItem]);
    } else {
      AllPlainTail(rs);
      ConcatItems(rs[1..]);
      assert strs[1..] == RequirementStrings(rs[1..]);
      ConcatAppend([CommaItem], Items(rs[1..]));
      ConcatAppend(PairItems(rs[0]), [CommaItem] + Items(rs[1..]));
    }
  }

  // ------------------------------------------------------------------ which tokens read back

  /** A word token: the lexer's identifier or keyword for a non-empty word. */
  predicate IsWord(a: ScannedItem) {
    |a.literal| > 0 && WordChars(a.literal) && a == WordItem(a.literal)
  }

  /** With `c` right after it, token `a` is read back whole: a word stops at a special
      symbol, and neither `=` nor `,` starts a longer literal. */
  predicate FitsBefore(a: ScannedItem, c: char) {
    || (IsWord(a) && IsSpecialSymbol(c))
    || (a == EqualsItem && (WordChar(c) || c == ','))
    || (a == CommaItem && WordChar(c))
  }

  /** Token `a` may end the input. */
  predicate FitsAtEnd(a: ScannedItem) {
    IsWord(a) || a == EqualsItem
  }

  predicate Follows(a: ScannedItem, b: ScannedItem) {
    (b == EndItem && FitsAtEnd(a)) || (b.literal != "" && FitsBefore(a, b.literal[0]))
  }

  predicate Chained(items: seq<ScannedItem>) {
    forall j :: 0 <= j < |items| - 1 ==> Follows(items[j], items[j + 1])
  }

  /** Tokens that, printed one after another, the lexer reads back one by one. */
  predicate Readable(items: seq<ScannedItem>) {
    |items| > 0 && items[|items| - 1] == EndItem && Chained(items)
  }

  lemma {:induction false} ChainedAppend(xs: seq<ScannedItem>, ys: seq<ScannedItem>)
    requires |xs| > 0 && |ys| > 0 && Chained(xs) && Chained(ys) && Follows(xs[|xs| - 1], ys[0])
    ensures Chained(xs + ys)
  {
    var zs := xs + ys;
    forall j | 0 <= j < |zs| - 1 ensures Follows(zs[j], zs[j + 1]) {
      if j + 1 < |xs| {
        assert zs[j] == xs[j] && zs[j + 1] == xs[j + 1];
      } else if j + 1 == |xs| {
        assert zs[j] == xs[j] && zs[j + 1] == ys[0];
      } else {
        assert zs[j] == ys[j - |xs|] && zs[j + 1] == ys[j - |xs| + 1];
      }
    }
  }

  lemma {:induction false} WordIsWord(w: string)
    requires |w| > 0 && WordChars(w)
    ensures IsWord(WordItem(w))
  {
  }

  lemma {:induction false} PairChained(r: Requirement)
    requires Plain(r)
    ensures Chained(PairItems(r)) && FitsAtEnd(PairItems(r)[|PairItems(r)| - 1])
    ensures Follows(PairItems(r)[|PairItems(r)| - 1], CommaItem)
  {
    var k, v := r.key, r.strValues[0];
    WordIsWord(k);
    if v != "" {
      WordIsWord(v);
      assert v[0] == WordItem(v).literal[0];
    }
  }

  /** The tokens of printed requirements read back one by one. */
  lemma {:induction false} ItemsReadable(rs: seq<Requirement>)
    requires |rs| > 0 && AllPlain(rs)
    ensures Readable(Items(rs))
    decreases |rs|
  {
    var pair := PairItems(rs[0]);
    PairChained(rs[0]);
    if |rs| == 1 {
      ChainedAppend(pair, [EndItem]);
    } else {
      AllPlainTail(rs);
      ItemsReadable(rs[1..]);
      var more := Items(rs[1..]);
      assert more[0].literal[0] == rs[1].key[0];
      ChainedAppend([CommaItem], more);
      ChainedAppend(pair, [CommaItem] + more);
    }
  }

  // ------------------------------------------------------------------ lexing

  /** The text `w` stands in `s` from position `p` on. */
  predicate TextAt(s: string, p: nat, w: string)
    decreases |w|
  {
    p + |w| <= |s| && (w == "" || (s[p] == w[0] && TextAt(s, p + 1, w[1..])))
  }

  lemma {:induction false} TextAtSlice(s: string, p: nat, w: string)
    requires TextAt(s, p, w)
    ensures s[p..p + |w|] == w
    decreases |w|
  {
    if w != "" {
      TextAtSlice(s, p + 1, w[1..]);
      assert s[p..p + |w|] == [s[p]] + s[p + 1..p + |w|];
    }
  }

  lemma {:induction false} TextAtSuffix(s: string, p: nat)
    requires p <= |s|
    ensures TextAt(s, p, s[p..])
    decreases |s| - p
  {
    if p < |s| {
      TextAtSuffix(s, p + 1);
      assert s[p..][1..] == s[p + 1..];
    }
  }

  lemma {:induction false} TextAtSplit(s: string, p: nat, a: string, b: string)
    requires TextAt(s, p, a + b)
    ensures TextAt(s, p, a) && TextAt(s, p + |a|, b)
    decreases |a|
  {
    if a == "" {
      assert a + b == b;
    } else {
      assert (a + b)[1..] == a[1..] + b;
      TextAtSplit(s, p + 1, a[1..], b);
    }
  }

  lemma {:induction false} FirstNonBlankAt(s: string, p: nat)
    requires p < |s| && !IsWhitespace(s[p])
    ensures FirstNonBlank(s, p) == p
  {
  }

  /** The identifier run from a word is the word, when a special symbol or the end follows. */
  lemma {:induction false} RunOfWord(s: string, p: nat, w: string)
    requires p + |w| <= |s| && s[p..p + |w|] == w && WordChars(w)
    requires p + |w| < |s| ==> IsSpecialSymbol(s[p + |w|])
    ensures IdentifierRun(s, p) == (w, p + |w|)
  {
    var r := IdentifierRun(s, p).0;
    // the run stops at the first character that ends an identifier, which is just past `w`
    if |w| > 0 {
      var k := if |r| < |w| then |r| else 0;
      assert s[p + k] == s[p..p + |w|][k];
    }
    if |r| > 0 {
      var k := if |r| > |w| then |w| else 0;
      assert r[k] == s[p + k];
    }
    assert |r| == |w|;
  }

  /** `Lex` on a word followed by a special symbol or the end yields the word. */
  lemma {:induction false} LexWord(s: string, p: nat, a: ScannedItem)
    requires IsWord(a)
    requires p + |a.literal| <= |s| && s[p..p + |a.literal|] == a.literal
    requires p + |a.literal| < |s| ==> IsSpecialSymbol(s[p + |a.literal|])
    ensures LexAt(s, p) == (a, p + |a.literal|)
  {
    var w := a.literal;
    assert s[p] == w[0];
    FirstNonBlankAt(s, p);
    LexAtIdentifier(s, p);
    RunOfWord(s, p, w);
  }

  /** `Lex` on a one-character literal that no second special symbol extends yields it. */
  lemma {:induction false} LexSymbol(s: string, p: nat)
    requires p < |s| && IsSpecialSymbol(s[p]) && LiteralToken([s[p]]).Some?
    requires p + 1 < |s| ==> s[p + 1] != NUL && (IsSpecialSymbol(s[p + 1]) ==> LiteralToken(s[p..p + 2]).None?)
    ensures LexAt(s, p) == (ScannedItem(LiteralToken([s[p]]).value, [s[p]]), p + 1)
  {
    FirstNonBlankAt(s, p);
    LexAtSpecial(s, p);
    ScanSpecialSymbolSteps(s, p);
    assert s[p..p + 1] == [s[p]];
  }

  /** Token `a`, ending at `e` in `s`, is followed by a character that fits after it, or
      by the end. */
  predicate FitsAt(s: string, e: nat, a: ScannedItem) {
    (e == |s| && FitsAtEnd(a)) || (e < |s| && FitsBefore(a, s[e]))
  }

  lemma {:induction false} WordFits(s: string, p: nat, a: ScannedItem)
    requires TextAt(s, p, a.literal) && FitsAt(s, p + |a.literal|, a) && IsWord(a)
    ensures p + |a.literal| <= |s| && s[p..p + |a.literal|] == a.literal
    ensures p + |a.literal| < |s| ==> IsSpecialSymbol(s[p + |a.literal|])
  {
    TextAtSlice(s, p, a.literal);
  }

  lemma {:induction false} SymbolFits(s: string, p: nat, a: ScannedItem)
    requires TextAt(s, p, a.literal) && FitsAt(s, p + |a.literal|, a) && !IsWord(a)
    ensures p < |s| && IsSpecialSymbol(s[p]) && LiteralToken([s[p]]).Some?
    ensures p + 1 < |s| ==> s[p + 1] != NUL && (IsSpecialSymbol(s[p + 1]) ==> LiteralToken(s[p..p + 2]).None?)
    ensures a == ScannedItem(LiteralToken([s[p]]).value, [s[p]]) && |a.literal| == 1
  {
    TextAtSlice(s, p, a.literal);
    assert s[p] == a.literal[0];
    if p + 1 < |s| && IsSpecialSymbol(s[p + 1]) {
      assert s[p..p + 2] == [s[p], s[p + 1]];
    }
  }

  /** `Lex` reads back a token followed by a character that fits after it, or by the end. */
  lemma {:induction false} LexItem(s: string, p: nat, a: ScannedItem)
    requires TextAt(s, p, a.literal) && FitsAt(s, p + |a.literal|, a)
    ensures LexAt(s, p) == (a, p + |a.literal|)
  {
    if IsWord(a) {
      LexWordItem(s, p, a);
    } else {
      LexSymbolItem(s, p, a);
    }
  }

  lemma {:induction false} LexWordItem(s: string, p: nat, a: ScannedItem)
    requires TextAt(s, p, a.literal) && FitsAt(s, p + |a.literal|, a) && IsWord(a)
    ensures LexAt(s, p) == (a, p + |a.literal|)
  {
    WordFits(s, p, a);
    LexWord(s, p, a);
  }

  lemma {:induction false} LexSymbolItem(s: string, p: nat, a: ScannedItem)
    requires TextAt(s, p, a.literal) && FitsAt(s, p + |a.literal|, a) && !IsWord(a)
    ensures LexAt(s, p) == (a, p + |a.literal|)
  {
    SymbolFits(s, p, a);
    LexSymbol(s, p);
  }

  /** `Lex` from `p` yields `items` one after another, up to the end token. */
  predicate Lexes(s: string, p: nat, items: seq<ScannedItem>)
    requires p <= |s|
    decreases |items|
  {
    && |items| > 0 && p + |items[0].literal| <= |s|
    && LexAt(s, p) == (items[0], p + |items[0].literal|)
    && if items[0].tok == EndOfStringToken then |items| == 1 else Lexes(s, p + |items[0].literal|, items[1..])
  }

  /** A token `Lex` reads at `p` followed by tokens it reads from there on. */
  lemma {:induction false} LexesCons(s: string, p: nat, items: seq<ScannedItem>)
    requires |items| > 1 && items[0].tok != EndOfStringToken && p + |items[0].literal| <= |s|
    requires LexAt(s, p) == (items[0], p + |items[0].literal|)
    requires Lexes(s, p + |items[0].literal|, items[1..])
    ensures Lexes(s, p, items)
  {
  }

  /** `scan` collects exactly the tokens `Lex` yields one after another. */
  lemma {:induction false} ScanOfLexes(s: string, p: nat, items: seq<ScannedItem>)
    requires p <= |s| && Lexes(s, p, items)
    ensures ScanFrom(s, p) == items
    decreases |items|
  {
    var a, e := items[0], p + |items[0].literal|;
    if a.tok == EndOfStringToken {
      ScanAtEnd(s, p, a, e);
      assert [a] == items;
    } else {
      ScanOfLexes(s, e, items[1..]);
      ScanBeforeMore(s, p, a, e);
      assert [a] + items[1..] == items;
    }
  }

  /** The first of several readable tokens stands at `p` with a character that fits after
      it, and the rest stands right after it. */
  lemma {:induction false} FirstFits(s: string, p: nat, items: seq<ScannedItem>)
    requires Readable(items) && |items| > 1
    requires TextAt(s, p, Concat(items)) && p + |Concat(items)| == |s|
    ensures TextAt(s, p, items[0].literal) && FitsAt(s, p + |items[0].literal|, items[0])
    ensures items[0].tok != EndOfStringToken
    ensures TextAt(s, p + |items[0].literal|, Concat(items[1..]))
    ensures p + |items[0].literal| + |Concat(items[1..])| == |s|
  {
    var a, rest := items[0], items[1..];
    var e := p + |a.literal|;
    TextAtSplit(s, p, a.literal, Concat(rest));
    assert Follows(a, rest[0]);
    if rest[0] == EndItem {
      assert |rest| == 1 by {
        assert |rest| > 1 ==> Follows(items[1], items[2]);
      }
      assert Concat(rest) == "";
    } else {
      assert Concat(rest)[0] == rest[0].literal[0];
      assert s[e] == Concat(rest)[0];
    }
  }

  lemma {:induction false} ReadableTail(items: seq<ScannedItem>)
    requires Readable(items) && |items| > 1
    ensures Readable(items[1..])
  {
    var rest := items[1..];
    forall j | 0 <= j < |rest| - 1 ensures Follows(rest[j], rest[j + 1]) {
      assert rest[j] == items[j + 1] && rest[j + 1] == items[j + 2];
    }
  }

  /** The end token is read back at the end of the input. */
  lemma {:induction false} LexLast(s: string, p: nat, items: seq<ScannedItem>)
    requires Readable(items) && |items| == 1 && p + |Concat(items)| == |s|
    ensures Lexes(s, p, items)
  {
    assert items[0] == EndItem;
    assert Concat(items) == "";
  }

  /** Readable tokens, printed one after another up to the end of the input, are read back
      one by one. */
  lemma {:induction false} LexItems(s: string, p: nat, items: seq<ScannedItem>)
    requires Readable(items) && TextAt(s, p, Concat(items)) && p + |Concat(items)| == |s|
    ensures Lexes(s, p, items)
    decreases |items|
  {
    if |items| == 1 {
      LexLast(s, p, items);
    } else {
      FirstFits(s, p, items);
      ReadableTail(items);
      LexItems(s, p + |items[0].literal|, items[1..]);
      LexStep(s, p, items);
    }
  }

  /** A fitting first token in front of tokens read from right after it. */
  lemma {:induction false} LexStep(s: string, p: nat, items: seq<ScannedItem>)
    requires |items| > 1 && items[0].tok != EndOfStringToken
    requires TextAt(s, p, items[0].literal) && FitsAt(s, p + |items[0].literal|, items[0])
    requires p + |items[0].literal| <= |s| && Lexes(s, p + |items[0].literal|, items[1..])
    ensures Lexes(s, p, items)
  {
    LexItem(s, p, items[0]);
    LexesCons(s, p, items);
  }

  /** The printed requirements scan into their pairs' tokens, comma-separated, then the end. */
  lemma {:induction false} ScanRendered(s: string, rs: seq<Requirement>)
    requires |rs| > 0 && AllPlain(rs)
    requires s == Join(RequirementStrings(rs), ",")
    ensures ScanFrom(s, 0) == Items(rs)
  {
    ConcatItems(rs);
    ItemsReadable(rs);
    TextAtSuffix(s, 0);
    assert s[0..] == s;
    LexItems(s, 0, Items(rs));
    ScanOfLexes(s, 0, Items(rs));
  }

  // ------------------------------------------------------------------ parsing

  /** The validators accept the requirement's key and value. */
  predicate Valid(v: LabelRequirements.Validators, r: Requirement) {
    |r.strValues| == 1 && v.qualifiedName(r.key) && v.labelValue(r.strValues[0])
  }

  /** `parseRequirement` on the tokens of `key=value` followed by the end or a comma. */
  lemma {:induction false} ParsePair(v: LabelRequirements.Validators, items: seq<ScannedItem>, pos: nat, r: Requirement)
    requires WellScanned(items) && Plain(r) && Valid(v, r)
    requires pos + |PairItems(r)| < |items|
    requires items[pos..pos + |PairItems(r)|] == PairItems(r)
    requires items[pos + |PairItems(r)|].tok in {EndOfStringToken, CommaToken}
    ensures TokenIn(items[pos].tok, Values) in {IdentifierToken, DoesNotExistToken}
    ensures RequirementAt(v, items, pos) == Ok((r, pos + |PairItems(r)|))
  {
    PairKey(v, items, pos, r);
    PairOperator(v, items, pos, r);
  }

  /** The key of `key=value`, with no operator inferred since `=` follows it. */
  lemma {:induction false} PairKey(v: LabelRequirements.Validators, items: seq<ScannedItem>, pos: nat, r: Requirement)
    requires WellScanned(items) && Plain(r) && Valid(v, r)
    requires pos + |PairItems(r)| < |items|
    requires items[pos..pos + |PairItems(r)|] == PairItems(r)
    ensures TokenIn(items[pos].tok, Values) in {IdentifierToken, DoesNotExistToken}
    ensures KeyAndInferOperatorAt(v, items, pos) == Ok(((r.key, None), pos + 1))
  {
    var laid := items[pos..pos + |PairItems(r)|];
    assert items[pos] == laid[0] && items[pos + 1] == laid[1];
  }

  /** The `=` of `key=value` and its value, up to the end or a comma. */
  lemma {:induction false} PairOperator(v: LabelRequirements.Validators, items: seq<ScannedItem>, pos: nat, r: Requirement)
    requires WellScanned(items) && Plain(r) && Valid(v, r)
    requires pos + |PairItems(r)| < |items|
    requires items[pos..pos + |PairItems(r)|] == PairItems(r)
    requires items[pos + |PairItems(r)|].tok in {EndOfStringToken, CommaToken}
    ensures OperatorRequirementAt(v, items, r.key, pos + 1) == Ok((r, pos + |PairItems(r)|))
  {
    var n, laid := |PairItems(r)|, items[pos..pos + |PairItems(r)|];
    assert items[pos + 1] == laid[1];
    if n == 3 {
      assert items[pos + 2] == laid[2];
    }
    assert r == LabelRequirements.Requirement(r.key, Equals, [r.strValues[0]]);
    assert LabelRequirements.NewRequirement(v, r.key, Equals, r.strValues) == Ok(r);
  }

  lemma {:induction false} Peel<T>(xs: seq<T>, p: nat, a: seq<T>, rest: seq<T>)
    requires p <= |xs| && xs[p..] == a + rest
    ensures p + |a| <= |xs| && xs[p..p + |a|] == a && xs[p + |a|..] == rest
  {
    assert xs[p..][..|a|] == a;
    assert xs[p..][|a|..] == rest;
  }

  /** Where the first pair's tokens and what follows them lie among the tokens. */
  lemma {:induction false} ItemsLayout(items: seq<ScannedItem>, pos: nat, rs: seq<Requirement>)
    requires |rs| > 0 && AllPlain(rs)
    requires pos <= |items| && items[pos..] == Items(rs)
    ensures pos + |PairItems(rs[0])| < |items|
    ensures items[pos..pos + |PairItems(rs[0])|] == PairItems(rs[0])
    ensures |rs| == 1 ==> items[pos + |PairItems(rs[0])|] == EndItem
    ensures |rs| > 1 ==> && items[pos + |PairItems(rs[0])|] == CommaItem
                         && items[pos + |PairItems(rs[0])| + 1..] == Items(rs[1..])
  {
    if |rs| == 1 {
      LayoutOfLast(items, pos, rs);
    } else {
      LayoutBeforeComma(items, pos, rs);
    }
  }

  lemma {:induction false} LayoutOfLast(items: seq<ScannedItem>, pos: nat, rs: seq<Requirement>)
    requires |rs| == 1 && AllPlain(rs)
    requires pos <= |items| && items[pos..] == Items(rs)
    ensures pos + |PairItems(rs[0])| < |items|
    ensures items[pos..pos + |PairItems(rs[0])|] == PairItems(rs[0])
    ensures items[pos + |PairItems(rs[0])|] == EndItem
  {
    var n := |PairItems(rs[0])|;
    Peel(items, pos, PairItems(rs[0]), [EndItem]);
    assert items[pos + n] == items[pos + n..][0];
  }

  lemma {:induction false} LayoutBeforeComma(items: seq<ScannedItem>, pos: nat, rs: seq<Requirement>)
    requires |rs| > 1 && AllPlain(rs)
    requires pos <= |items| && items[pos..] == Items(rs)
    ensures pos + |PairItems(rs[0])| < |items|
    ensures items[pos..pos + |PairItems(rs[0])|] == PairItems(rs[0])
    ensures items[pos + |PairItems(rs[0])|] == CommaItem
    ensures items[pos + |PairItems(rs[0])| + 1..] == Items(rs[1..])
  {
    var n := |PairItems(rs[0])|;
    Peel(items, pos, PairItems(rs[0]), [CommaItem] + Items(rs[1..]));
    Peel(items, pos + n, [CommaItem], Items(rs[1..]));
  }

  /** The tokens from `pos` on are those of the printed requirements `rs`, laid out pair
      by pair: each pair's tokens, then a comma, and the end after the last pair. */
  predicate Laid(items: seq<ScannedItem>, pos: nat, rs: seq<Requirement>)
    decreases |rs|
  {
    && |rs| > 0 && Plain(rs[0])
    && pos + |PairItems(rs[0])| < |items|
    && items[pos..pos + |PairItems(rs[0])|] == PairItems(rs[0])
    && if |rs| == 1 then items[pos + |PairItems(rs[0])|] == EndItem
       else items[pos + |PairItems(rs[0])|] == CommaItem && Laid(items, pos + |PairItems(rs[0])| + 1, rs[1..])
  }

  lemma {:induction false} ItemsLaid(items: seq<ScannedItem>, pos: nat, rs: seq<Requirement>)
    requires |rs| > 0 && AllPlain(rs)
    requires pos <= |items| && items[pos..] == Items(rs)
    ensures Laid(items, pos, rs)
    decreases |rs|
  {
    ItemsLayout(items, pos, rs);
    if |rs| > 1 {
      AllPlainTail(rs);
      ItemsLaid(items, pos + |PairItems(rs[0])| + 1, rs[1..]);
    }
  }

  lemma {:induction false} AppendFirst<T>(acc: seq<T>, xs: seq<T>)
    requires |xs| > 0
    ensures acc + [xs[0]] + xs[1..] == acc + xs
    ensures |xs| == 1 ==> acc + [xs[0]] == acc + xs
  {
    assert [xs[0]] + xs[1..] == xs;
  }

  lemma {:induction false} ValidTail(v: LabelRequirements.Validators, rs: seq<Requirement>)
    requires |rs| > 0 && forall i :: 0 <= i < |rs| ==> Valid(v, rs[i])
    ensures forall i :: 0 <= i < |rs| - 1 ==> Valid(v, rs[1..][i])
  {
    forall i | 0 <= i < |rs| - 1 ensures Valid(v, rs[1..][i]) {
      assert rs[1..][i] == rs[i + 1];
    }
  }

  /** The parse loop over the last pair's tokens and the end token. */
  lemma {:induction false} ParseLastPair(v: LabelRequirements.Validators, items: seq<ScannedItem>, pos: nat,
                                         rs: seq<Requirement>, acc: seq<Requirement>)
    requires WellScanned(items) && |rs| == 1 && Laid(items, pos, rs) && Valid(v, rs[0])
    ensures pos < |items| && LoopAt(v, items, pos, acc) == Ok(acc + rs)
  {
    var r := rs[0];
    ParsePair(v, items, pos, r);
    LoopThroughEnd(v, items, pos, acc, r, pos + |PairItems(r)|);
    AppendFirst(acc, rs);
  }

  /** The parse loop reads the tokens of printed requirements back as those requirements. */
  lemma {:induction false} ParseItems(v: LabelRequirements.Validators, items: seq<ScannedItem>, pos: nat,
                                      rs: seq<Requirement>, acc: seq<Requirement>)
    requires WellScanned(items) && Laid(items, pos, rs)
    requires forall i :: 0 <= i < |rs| ==> Valid(v, rs[i])
    ensures pos < |items| && LoopAt(v, items, pos, acc) == Ok(acc + rs)
    decreases |rs|, 1
  {
    if |rs| == 1 {
      ParseLastPair(v, items, pos, rs, acc);
    } else {
      ParseSeveral(v, items, pos, rs, acc);
    }
  }

  /** The same, for two or more requirements: the first pair and a comma, then the rest,
      read on from the next round of the loop. */
  lemma {:induction false} ParseSeveral(v: LabelRequirements.Validators, items: seq<ScannedItem>, pos: nat,
                                        rs: seq<Requirement>, acc: seq<Requirement>)
    requires WellScanned(items) && |rs| > 1 && Laid(items, pos, rs)
    requires forall i :: 0 <= i < |rs| ==> Valid(v, rs[i])
    ensures pos < |items| && LoopAt(v, items, pos, acc) == Ok(acc + rs)
    decreases |rs|, 0
  {
    var r, next := rs[0], pos + |PairItems(rs[0])|;
    ValidTail(v, rs);
    assert Laid(items, next + 1, rs[1..]);
    assert items[next + 1] == items[next + 1..next + 1 + |PairItems(rs[1])|][0];
    ParseItems(v, items, next + 1, rs[1..], acc + [r]);
    ParsePair(v, items, pos, r);
    LoopThroughComma(v, items, pos, acc, r, next);
    AppendFirst(acc, rs);
  }

  // ------------------------------------------------------------------ the round trip

  /** A word after `=` is taken as the value even when it spells the keyword `in` or
      `notin`: `key=w` parses to the requirement that `key` equals `w`. */
  lemma {:induction false} WordAfterEquals(v: LabelRequirements.Validators, key: string, w: string)
    requires |key| > 0 && WordChars(key) && WordChars(w)
    requires v.qualifiedName(key) && v.labelValue(w)
    ensures ParsedSelector(v, key + "=" + w) == Ok(Internal([LabelRequirements.Requirement(key, Equals, [w])]))
  {
    var r := LabelRequirements.Requirement(key, Equals, [w]);
    assert LabelRequirements.ValuesText(r.strValues) == w;
    assert RequirementStrings([r]) == [key + "=" + w];
    ParsePrinted(v, [r]);
    var sorted := SortByKey([r]);
    assert |sorted| == |multiset(sorted)| == 1;
    assert sorted[0] in multiset([r]);
    assert sorted == [r];
  }

  /** Every requirement of a selector built from such a label set is a plain `key=value`
      the validators accept. */
  lemma {:induction false} BuiltFromPlainSet(v: LabelRequirements.Validators, sel: Selector, ls: map<string, string>)
    requires BuiltFromSet(sel, ls)
    requires forall k :: k in ls ==> |k| > 0 && WordChars(k) && WordChars(ls[k])
    requires forall k :: k in ls ==> v.qualifiedName(k) && v.labelValue(ls[k])
    ensures |sel.reqs| == |ls|
    ensures AllPlain(sel.reqs) && forall i :: 0 <= i < |sel.reqs| ==> Valid(v, sel.reqs[i])
  {
    var rs := sel.reqs;
    assert |rs| == |multiset(rs)| == |ls|;
    forall i | 0 <= i < |rs| ensures Plain(rs[i]) && Valid(v, rs[i]) {
      assert rs[i] in multiset(rs);
      Enumeration.ImageMembers(ls, EqualsRequirement, rs[i]);
    }
  }

  /** `Parse` of printed plain requirements yields them, sorted by key. */
  lemma {:induction false} ParsePrinted(v: LabelRequirements.Validators, rs: seq<Requirement>)
    requires |rs| > 0 && AllPlain(rs) && forall i :: 0 <= i < |rs| ==> Valid(v, rs[i])
    ensures ParsedSelector(v, Join(RequirementStrings(rs), ",")) == Ok(Internal(SortByKey(rs)))
  {
    var text := Join(RequirementStrings(rs), ",");
    LoopOverPrinted(v, rs);
    ParsedFromLoop(v, text, rs);
  }

  /** The parse loop over the scanned printed requirements reads them back in order. */
  lemma {:induction false} LoopOverPrinted(v: LabelRequirements.Validators, rs: seq<Requirement>)
    requires |rs| > 0 && AllPlain(rs) && forall i :: 0 <= i < |rs| ==> Valid(v, rs[i])
    ensures LoopAt(v, ScanFrom(Join(RequirementStrings(rs), ","), 0), 0, []) == Ok(rs)
  {
    var items := ScanFrom(Join(RequirementStrings(rs), ","), 0);
    ScanRendered(Join(RequirementStrings(rs), ","), rs);
    LoopOverItems(v, items, rs);
  }

  /** The parse loop over the tokens of printed requirements reads them back in order. */
  lemma {:induction false} LoopOverItems(v: LabelRequirements.Validators, items: seq<ScannedItem>, rs: seq<Requirement>)
    requires |rs| > 0 && AllPlain(rs) && forall i :: 0 <= i < |rs| ==> Valid(v, rs[i])
    requires WellScanned(items) && items == Items(rs)
    ensures LoopAt(v, items, 0, []) == Ok(rs)
  {
    assert items[0..] == items;
    ItemsLaid(items, 0, rs);
    ParseItems(v, items, 0, rs, []);
    assert [] + rs == rs;
  }

  /** Two selectors built from the same label set match the same label maps. */
  lemma {:induction false} SameSetSameMatches(a: Selector, b: Selector, ls: map<string, string>)
    requires BuiltFromSet(a, ls) && BuiltFromSet(b, ls)
    ensures forall labels: LabelRequirements.Labels :: Selectors.Matches(a, labels) <==> Selectors.Matches(b, labels)
  {
    forall labels: LabelRequirements.Labels
      ensures Selectors.Matches(a, labels) <==> Selectors.Matches(b, labels)
    {
      BuiltFromSetMatches(a, ls, labels);
      BuiltFromSetMatches(b, ls, labels);
    }
  }

  /** A selector built from a label set, printed with `String()` and read back with
      `Parse`, is again the selector built from that set, and so matches exactly the same
      label maps. This needs every key to be a non-empty word and every value a (possibly
      empty) word to the lexer, with no whitespace, special symbol or NUL, and the
      validators to accept them. */
  lemma {:induction false} ParseSelectorString(v: LabelRequirements.Validators, sel: Selector, ls: map<string, string>)
    requires BuiltFromSet(sel, ls)
    requires forall k :: k in ls ==> |k| > 0 && WordChars(k) && WordChars(ls[k])
    requires forall k :: k in ls ==> v.qualifiedName(k) && v.labelValue(ls[k])
    ensures ParsedSelector(v, SelectorString(sel)).Ok?
    ensures BuiltFromSet(ParsedSelector(v, SelectorString(sel)).value, ls)
    ensures forall labels: LabelRequirements.Labels ::
      Selectors.Matches(ParsedSelector(v, SelectorString(sel)).value, labels) <==> Selectors.Matches(sel, labels)
  {
    var rs := sel.reqs;
    BuiltFromPlainSet(v, sel, ls);
    if |rs| == 0 {
      ParseEmptyString(v);
    } else {
      ParsePrinted(v, rs);
    }
    SameSetSameMatches(ParsedSelector(v, SelectorString(sel)).value, sel, ls);
  }
}
